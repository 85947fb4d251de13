/** The CSV worker (`csvWorker` message handler): an input guard and the
    same header and lines as `generateCsv`, without its empty-array case. */
module CsvWorker {
  import opened Strings
  import opened CsvUtils

  /** The `data` field of the message: missing or not an array, or an array. */
  datatype Payload = NoArray | DataArray(items: seq<Element>)

  /** `{csv}` or `{error}`. */
  datatype Message = CsvMessage(csv: string) | ErrorMessage(error: string)

  /** The handler; `thrown` is `String(err)` of the TypeError that a `null`
      element causes. */
  function OnMessage(p: Payload, thrown: string): (m: Message)
    ensures p.NoArray? ==> m == ErrorMessage("Invalid data format")
    ensures p.DataArray? ==> (m == ErrorMessage(thrown) <==> !AllObjects(p.items))
    ensures p.DataArray? ==> (m.CsvMessage? <==> AllObjects(p.items))
  {
    if p.NoArray? then ErrorMessage("Invalid data format")
    else
      var data := p.items;
      if !AllObjects(data) then ErrorMessage(thrown)
      else CsvMessage(HeaderOf(if data == [] then Absent else data[0]) + "\n" + Join(DataLines(data), "\n"))
  }

  /** For a non-empty array the worker posts exactly what `generateCsv`
      returns, and an error exactly when it throws. */
  lemma {:induction false} AgreesWithGenerateCsv(data: seq<Element>, thrown: string)
    requires data != []
    ensures GenerateCsv(data).Returned? ==> OnMessage(DataArray(data), thrown) == CsvMessage(GenerateCsv(data).csv)
    ensures GenerateCsv(data).Threw? <==> OnMessage(DataArray(data), thrown) == ErrorMessage(thrown)
  {
  }

  /** An empty array gives a lone line feed, where `generateCsv` gives `''`. */
  lemma {:induction false} EmptyArray(thrown: string)
    ensures OnMessage(DataArray([]), thrown) == CsvMessage("\n")
    ensures GenerateCsv([]) == Returned("")
  {
    assert DataLines([]) == [];
  }
}
