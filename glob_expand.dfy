/** The deterministic end of `Expand` in the current glob engine. The
    directory walk (`ExpandRec`) is left out: whether the start directory
    exists and what the walk appends are parameters. */
module GlobExpand {
  import opened StringOrder

  /** `Expand` around the walk: the output is not cleared, the walk appends
      to it, and the whole list is then sorted with duplicates dropped. When
      the start does not exist nothing changes. */
  method Expand(out0: seq<string>, startExists: bool, found: seq<string>) returns (ok: bool, out: seq<string>)
    ensures ok == startExists
    ensures !ok ==> out == out0
    ensures ok ==> StrictlySorted(out) && forall y :: y in out <==> y in out0 || y in found
  {
    out := out0;
    if !startExists {
      return false, out;
    }
    out := out + found;
    out := SortUnique(out);
    return true, out;
  }
}
