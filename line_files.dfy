/** The loading pattern both persistent programs share: the in-memory list is
    cleared, then the file is read line by line and each line is parsed and
    appended. A line that does not parse throws, which ends the load and leaves
    the list holding exactly the items parsed before it. */
module LineFiles {
  import opened Wrappers

  /** The list a load leaves behind, and whether it got through every line. */
  datatype Loaded<T> = Loaded(items: seq<T>, complete: bool)

  /** Loading `lines` with `parse`: the longest run of parsable lines from the
      start, one item per line, in file order. */
  function LoadLines<T>(lines: seq<string>, parse: string -> Option<T>): (r: Loaded<T>)
    ensures |r.items| <= |lines|
    ensures forall i | 0 <= i < |r.items| :: parse(lines[i]) == Some(r.items[i])
    ensures r.complete <==> |r.items| == |lines|
    ensures !r.complete ==> parse(lines[|r.items|]).None?
  {
    if |lines| == 0 then Loaded([], true)
    else
      match parse(lines[0])
      case None => Loaded([], false)
      case Some(x) =>
        var rest := LoadLines(lines[1..], parse);
        Loaded([x] + rest.items, rest.complete)
  }

  /** A load that has parsed the first `|items|` lines and then either ran out of
      lines or met a line that does not parse ends with exactly `items`. */
  lemma {:induction false} LoadLinesStopsAt<T>(lines: seq<string>, parse: string -> Option<T>, items: seq<T>)
    requires |items| <= |lines|
    requires forall i | 0 <= i < |items| :: parse(lines[i]) == Some(items[i])
    requires |items| < |lines| ==> parse(lines[|items|]).None?
    ensures LoadLines(lines, parse) == Loaded(items, |items| == |lines|)
  {
    if |lines| > 0 && |items| > 0 {
      LoadLinesStopsAt(lines[1..], parse, items[1..]);
      assert items == [items[0]] + items[1..];
    }
  }
}
