/** RedisCredentials: where the store is and whether to authenticate. */
module Credentials {
  import opened Wrappers
  import JavaText

  /** Java's int. */
  type Int32 = x: int | -0x8000_0000 <= x < 0x8000_0000

  /** The credential fields; a null String is None. */
  datatype RedisCredentials = RedisCredentials(host: Option<string>, port: Int32, password: Option<string>, dbId: Int32)
  {
    /** shouldAuthenticate(): a password that is present, not empty and not
        blank once trimmed. */
    predicate ShouldAuthenticate()
      ensures password.None? ==> !ShouldAuthenticate()
      ensures password.Some? && (forall i :: 0 <= i < |password.value| ==> JavaText.IsTrimmed(password.value[i]))
              ==> !ShouldAuthenticate()
    {
      && password.Some?
      && |password.value| != 0
      && (JavaText.TrimEmptyIffAllTrimmed(password.value);
          |JavaText.Trim(password.value)| != 0)
    }

    function SetHost(host': Option<string>): (r: RedisCredentials)
      ensures r.host == host' && r.port == port && r.password == password && r.dbId == dbId
    {
      this.(host := host')
    }

    function SetPort(port': Int32): (r: RedisCredentials)
      ensures r.port == port' && r.host == host && r.password == password && r.dbId == dbId
    {
      this.(port := port')
    }

    function SetPassword(password': Option<string>): (r: RedisCredentials)
      ensures r.password == password' && r.host == host && r.port == port && r.dbId == dbId
    {
      this.(password := password')
    }

    function SetDbId(dbId': Int32): (r: RedisCredentials)
      ensures r.dbId == dbId' && r.host == host && r.port == port && r.password == password
    {
      this.(dbId := dbId')
    }
  }

  const DefaultHost: string := "localhost"
  const DefaultPort: Int32 := 6379

  /** The no-argument constructor: the local store on the default port,
      database 0, no password, hence no authentication. */
  function Default(): (c: RedisCredentials)
    ensures c.host == Some(DefaultHost) && c.port == DefaultPort && c.password.None? && c.dbId == 0
    ensures !c.ShouldAuthenticate()
  {
    RedisCredentials(Some(DefaultHost), DefaultPort, None, 0)
  }

  /** The four-argument constructor: each argument stored as given. */
  function Create(host: Option<string>, port: Int32, password: Option<string>, dbId: Int32): (c: RedisCredentials)
    ensures c.host == host && c.port == port && c.password == password && c.dbId == dbId
  {
    RedisCredentials(host, port, password, dbId)
  }

  /** Authentication is wanted exactly when the password is present and has a
      char above U+0020 somewhere. */
  lemma ShouldAuthenticateIffVisibleChar(c: RedisCredentials)
    ensures c.ShouldAuthenticate() <==>
      c.password.Some? && exists i :: 0 <= i < |c.password.value| && !JavaText.IsTrimmed(c.password.value[i])
  {
    if c.password.Some? {
      JavaText.TrimEmptyIffAllTrimmed(c.password.value);
    }
  }

  /** Builder: wraps one credentials object, starting from the defaults. */
  datatype Builder = Builder(credentials: RedisCredentials)
  {
    function Host(host: Option<string>): (b: Builder)
      ensures b.credentials == credentials.SetHost(host)
    {
      Builder(credentials.SetHost(host))
    }

    function Port(port: Int32): (b: Builder)
      ensures b.credentials == credentials.SetPort(port)
    {
      Builder(credentials.SetPort(port))
    }

    function Password(password: Option<string>): (b: Builder)
      ensures b.credentials == credentials.SetPassword(password)
    {
      Builder(credentials.SetPassword(password))
    }

    function DbId(dbId: Int32): (b: Builder)
      ensures b.credentials == credentials.SetDbId(dbId)
    {
      Builder(credentials.SetDbId(dbId))
    }

    function Build(): (c: RedisCredentials)
      ensures c == credentials
    {
      credentials
    }
  }

  /** A fresh Builder holds the defaults. */
  function NewBuilder(): (b: Builder)
    ensures b.credentials == Default()
  {
    Builder(Default())
  }

  /** One call on a Builder. */
  datatype Step = HostStep(host: Option<string>) | PortStep(port: Int32)
                | PasswordStep(password: Option<string>) | DbIdStep(dbId: Int32)

  /** The builder after one call. */
  function ApplyStep(b: Builder, step: Step): Builder
  {
    match step
    case HostStep(h) => b.Host(h)
    case PortStep(p) => b.Port(p)
    case PasswordStep(pw) => b.Password(pw)
    case DbIdStep(d) => b.DbId(d)
  }

  /** The builder after `steps`, applied left to right. */
  function Apply(b: Builder, steps: seq<Step>): Builder
    decreases |steps|
  {
    if |steps| == 0 then b else Apply(ApplyStep(b, steps[0]), steps[1..])
  }

  /** The value each field ends with: the one its last step set, else the
      starting value. */
  function LastHost(steps: seq<Step>, start: Option<string>): Option<string>
    decreases |steps|
  {
    if |steps| == 0 then start
    else if steps[|steps| - 1].HostStep? then steps[|steps| - 1].host
    else LastHost(steps[..|steps| - 1], start)
  }

  function LastPort(steps: seq<Step>, start: Int32): Int32
    decreases |steps|
  {
    if |steps| == 0 then start
    else if steps[|steps| - 1].PortStep? then steps[|steps| - 1].port
    else LastPort(steps[..|steps| - 1], start)
  }

  function LastPassword(steps: seq<Step>, start: Option<string>): Option<string>
    decreases |steps|
  {
    if |steps| == 0 then start
    else if steps[|steps| - 1].PasswordStep? then steps[|steps| - 1].password
    else LastPassword(steps[..|steps| - 1], start)
  }

  function LastDbId(steps: seq<Step>, start: Int32): Int32
    decreases |steps|
  {
    if |steps| == 0 then start
    else if steps[|steps| - 1].DbIdStep? then steps[|steps| - 1].dbId
    else LastDbId(steps[..|steps| - 1], start)
  }

  /** Applying one more step after `steps`. */
  lemma {:induction false} ApplySnoc(b: Builder, steps: seq<Step>, s: Step)
    ensures Apply(b, steps + [s]) == ApplyStep(Apply(b, steps), s)
    decreases |steps|
  {
    if |steps| == 0 {
      assert Apply(b, [s]) == Apply(ApplyStep(b, s), []);
    } else {
      assert (steps + [s])[1..] == steps[1..] + [s];
      ApplySnoc(ApplyStep(b, steps[0]), steps[1..], s);
    }
  }

  /** Every builder method touches only its own field: after any sequence of
      calls, each field holds the last value set for it, or the value the
      builder started with. */
  lemma {:induction false} BuildKeepsLastSetting(b: Builder, steps: seq<Step>)
    ensures var c := Apply(b, steps).Build();
      && c.host == LastHost(steps, b.credentials.host)
      && c.port == LastPort(steps, b.credentials.port)
      && c.password == LastPassword(steps, b.credentials.password)
      && c.dbId == LastDbId(steps, b.credentials.dbId)
    decreases |steps|
  {
    if |steps| > 0 {
      var init := steps[..|steps| - 1];
      assert steps == init + [steps[|steps| - 1]];
      ApplySnoc(b, init, steps[|steps| - 1]);
      BuildKeepsLastSetting(b, init);
    }
  }

  /** The four-argument constructor and a builder that sets all four fields
      produce the same credentials. */
  lemma ConstructorMatchesBuilder(host: Option<string>, port: Int32, password: Option<string>, dbId: Int32)
    ensures NewBuilder().Host(host).Port(port).Password(password).DbId(dbId).Build() == Create(host, port, password, dbId)
  {
  }
}
