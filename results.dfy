/** Optional values and the Python exceptions that the dashboard pages let
    escape. A page that raises one of these stops rendering; the model returns
    `Err` instead. */
module Results {

  datatype Option<+T> = None | Some(value: T)

  /** The exceptions the modelled code can raise and does not catch. */
  datatype PyError =
    | IndexError      // positional access past the end (`x[1]`, `iloc[0]` on an empty frame)
    | KeyError        // dictionary lookup of a missing key
    | TypeError       // iterating over `None`
    | AttributeError  // `.get` on something that is not a dict

  datatype Result<+T> = Ok(value: T) | Err(error: PyError)

  /** `Series.apply(f)` with an `f` that may raise: the results in order,
      or the exception of the first cell that raises. */
  function ApplyAll<A, B>(cells: seq<A>, f: A -> Result<B>): (r: Result<seq<B>>)
    ensures r.Ok? <==> forall i :: 0 <= i < |cells| ==> f(cells[i]).Ok?
    ensures r.Ok? ==> |r.value| == |cells|
    ensures r.Ok? ==> forall i :: 0 <= i < |cells| ==> r.value[i] == f(cells[i]).value
    ensures r.Err? ==> exists i :: 0 <= i < |cells| && f(cells[i]) == Err(r.error)
                                 && forall j :: 0 <= j < i ==> f(cells[j]).Ok?
  {
    if cells == [] then Ok([])
    else
      var n := |cells| - 1;
      var pre := cells[..n];
      assert forall j :: 0 <= j < n ==> pre[j] == cells[j];
      match ApplyAll(pre, f)
      case Err(e) => Err(e)
      case Ok(front) =>
        match f(cells[n])
        case Err(e) =>
          assert f(cells[n]) == Err(e);
          Err(e)
        case Ok(last) => Ok(front + [last])
  }
}
