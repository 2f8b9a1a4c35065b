/** `Array.prototype.join` and `String.prototype.split` on one separator character. */
module Lines {

  /** `parts.join(sep)`: separators only between parts, none trailing. */
  function Join(parts: seq<string>, sep: string): (r: string)
    ensures |parts| == 0 ==> r == ""
    ensures 0 < |parts| ==> parts[0] <= r
    ensures 0 < |parts| ==> |parts[|parts| - 1]| <= |r| && r[|r| - |parts[|parts| - 1]|..] == parts[|parts| - 1]
    decreases |parts|
  {
    if |parts| == 0 then ""
    else if |parts| == 1 then parts[0]
    else
      var rest := Join(parts[1..], sep);
      var r := parts[0] + sep + rest;
      assert r[|parts[0] + sep|..] == rest;
      r
  }

  /** A single part joins to itself. */
  lemma JoinOne(p: string, sep: string)
    ensures Join([p], sep) == p
  {
  }

  /** A join of two or more parts is the first part, a separator and the join of the rest. */
  lemma JoinCons(parts: seq<string>, sep: string)
    requires 1 < |parts|
    ensures Join(parts, sep) == parts[0] + sep + Join(parts[1..], sep)
  {
  }

  /** Regrouping the concatenations of a join. */
  lemma Regroup(a: string, sep: string, t: string, p: string)
    ensures a + sep + (t + sep + p) == (a + sep + t) + sep + p
  {
  }

  /**
    Joining is a left fold as well: one more part adds a separator and that
    part at the end. With `JoinOne` this fixes every character of the joined
    text, including parts that contain `sep`.
   */
  lemma {:induction false} JoinSnoc(parts: seq<string>, p: string, sep: string)
    requires 0 < |parts|
    ensures Join(parts + [p], sep) == Join(parts, sep) + sep + p
    decreases |parts|
  {
    var all := parts + [p];
    JoinCons(all, sep);
    if |parts| == 1 {
      assert all[1..] == [p];
      JoinOne(p, sep);
      JoinOne(parts[0], sep);
      assert parts == [parts[0]];
    } else {
      var tail := parts[1..];
      assert all[1..] == tail + [p];
      JoinSnoc(tail, p, sep);
      JoinCons(parts, sep);
      var t := Join(tail, sep);
      var a := parts[0];
      assert all[0] == a;
      assert Join(all, sep) == a + sep + Join(tail + [p], sep);
      assert Join(all, sep) == a + sep + (t + sep + p);
      assert Join(parts, sep) == a + sep + t;
      Regroup(a, sep, t, p);
    }
  }

  /** The total length of the parts. */
  function TotalLength(parts: seq<string>): nat
    decreases |parts|
  {
    if |parts| == 0 then 0 else |parts[0]| + TotalLength(parts[1..])
  }

  /** The joined text holds every part and one separator between each two. */
  lemma {:induction false} JoinLength(parts: seq<string>, sep: string)
    requires 0 < |parts|
    ensures |Join(parts, sep)| == TotalLength(parts) + (|parts| - 1) * |sep|
    decreases |parts|
  {
    if 1 < |parts| {
      var tail := parts[1..];
      JoinLength(tail, sep);
      assert (|parts| - 1) * |sep| == (|tail| - 1) * |sep| + |sep|;
    }
  }

  /** `s.split(c)`: the maximal pieces of `s` between occurrences of `c`. */
  function Split(s: string, c: char): (r: seq<string>)
    ensures 1 <= |r|
    ensures forall i :: 0 <= i < |r| ==> c !in r[i]
    decreases |s|
  {
    if |s| == 0 then [""]
    else
      var rest := Split(s[1..], c);
      if s[0] == c then [""] + rest
      else [[s[0]] + rest[0]] + rest[1..]
  }

  lemma {:induction false} SplitPlain(a: string, c: char)
    requires c !in a
    ensures Split(a, c) == [a]
    decreases |a|
  {
    if 0 < |a| {
      SplitPlain(a[1..], c);
      assert a == [a[0]] + a[1..];
    }
  }

  lemma {:induction false} SplitAtSeparator(a: string, b: string, c: char)
    requires c !in a
    ensures Split(a + [c] + b, c) == [a] + Split(b, c)
    decreases |a|
  {
    var s := a + [c] + b;
    if |a| == 0 {
      assert s[1..] == b;
    } else {
      assert s[1..] == a[1..] + [c] + b;
      SplitAtSeparator(a[1..], b, c);
      assert a == [a[0]] + a[1..];
    }
  }

  /**
    Splitting undoes joining when no part contains the separator: the text has
    exactly one line per part, with no extra empty line at the end.
   */
  lemma {:induction false} SplitJoin(parts: seq<string>, c: char)
    requires 1 <= |parts|
    requires forall i :: 0 <= i < |parts| ==> c !in parts[i]
    ensures Split(Join(parts, [c]), c) == parts
    decreases |parts|
  {
    if |parts| == 1 {
      SplitPlain(parts[0], c);
    } else {
      var tail := parts[1..];
      assert forall i :: 0 <= i < |tail| ==> tail[i] == parts[i + 1];
      SplitJoin(tail, c);
      var rest := Join(tail, [c]);
      assert Join(parts, [c]) == parts[0] + [c] + rest;
      SplitAtSeparator(parts[0], rest, c);
      assert parts == [parts[0]] + tail;
    }
  }
}
