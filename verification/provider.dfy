/** What the search provider hands to the formatter. The provider call itself
    (DuckDuckGo text search, main.py:18-25) is not modelled: its outcome is an
    input. A call either raised somewhere inside the guarded block, or it
    returned a list of result records in provider order. */
module Provider {

  datatype Option<+T> = None | Some(value: T) {

    /** Python's `d.get(key, default)` on a field that is either a string or absent. */
    function GetOr(default: T): T {
      match this
      case Some(v) => v
      case None => default
    }
  }

  /** One result dictionary; each field is either a string or absent. */
  datatype Record = Record(title: Option<string>, body: Option<string>, href: Option<string>)

  /** The outcome of the guarded provider call. */
  datatype Outcome = Failed | Returned(records: seq<Record>)

  /** Request parameters the source passes to the provider. They shape what
      the provider returns, which the model takes as given. */
  const MaxResults: nat := 8
  const TimeLimit: string := "d"
  const Region: string := "wt-wt"
}
