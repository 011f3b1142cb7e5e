/** The structural codec the bus is configured with (a Gson instance), kept
    abstract: how a message's data becomes a JSON tree, how a tree is
    written as text, and how text is read back as a JSON object. */
module Json {
  import opened Wrappers

  /** `D` is the producer's data (a Map<String, Object>), `J` a JSON object
      tree. `toTree` returns None where toJsonTree throws (with Gson's
      default settings, a NaN or infinite double in the data), and `parse`
      returns None where Gson throws JsonParseException. */
  datatype Gson<!D, !J> = Gson(toTree: D -> Option<J>, render: J -> string, parse: string -> Option<J>)
  {
    /** The text sendMessage puts after the separator,
        gson.toJsonTree(data).toString(), or None when toJsonTree throws. */
    function Serialize(data: D): Option<string>
    {
      match toTree(data)
      case None => None
      case Some(tree) => Some(render(tree))
    }
  }

  /** The law assumed of the codec: reading back what was written yields the
      same tree (structural equality, not byte equality). */
  ghost predicate RoundTrips<D, J(!new)>(gson: Gson<D, J>)
  {
    forall j :: gson.parse(gson.render(j)) == Some(j)
  }
}
