/**
  The few Ruby string operations the model relies on: `String#downcase`
  (restricted to ASCII), `Array#join` and `String#split` with a literal
  separator.
 */
module RubyString {

  /** Lower-cases one ASCII letter and leaves every other character alone. */
  function DowncaseChar(c: char): char
  {
    if 'A' <= c <= 'Z' then (c as int + 32) as char else c
  }

  /** `s.downcase`, folding ASCII capitals only. */
  function Downcase(s: string): (r: string)
    ensures |r| == |s|
    ensures forall i :: 0 <= i < |s| ==> r[i] == DowncaseChar(s[i])
  {
    if s == [] then [] else [DowncaseChar(s[0])] + Downcase(s[1..])
  }

  /** Lower-casing twice is lower-casing once. */
  lemma DowncaseIdempotent(s: string)
    ensures Downcase(Downcase(s)) == Downcase(s)
  {
  }

  /** `parts.join(sep)`. */
  function Join(parts: seq<string>, sep: string): string
  {
    if |parts| == 0 then ""
    else if |parts| == 1 then parts[0]
    else parts[0] + sep + Join(parts[1..], sep)
  }

  /** The join of more parts extends the join of fewer. */
  lemma {:induction false} JoinPrefix(a: seq<string>, b: seq<string>, sep: string)
    requires |a| > 0
    ensures Join(a, sep) <= Join(a + b, sep)
    decreases |a|
  {
    if |a| > 1 {
      assert (a + b)[1..] == a[1..] + b;
      JoinPrefix(a[1..], b, sep);
      var x, y := Join(a[1..], sep), Join(a[1..] + b, sep);
      assert y[..|x|] == x;
      assert (a[0] + sep + y)[..|a[0] + sep + x|] == a[0] + sep + x;
    } else if |b| > 0 {
      assert (a + b)[1..] == b;
      assert Join(a + b, sep) == a[0] + sep + Join(b, sep);
    } else {
      assert a + b == a;
    }
  }

  /** A join whose first part is not empty is not empty. */
  lemma JoinNotEmpty(parts: seq<string>, sep: string)
    requires |parts| > 0 && |parts[0]| > 0
    ensures Join(parts, sep) != ""
  {
    if |parts| > 1 {
      assert Join(parts, sep)[0] == parts[0][0];
    }
  }

  /** No character of `sep` occurs in any of `parts`. */
  predicate FreeOf(parts: seq<string>, sep: string)
  {
    forall i, j :: 0 <= i < |parts| && 0 <= j < |parts[i]| ==> parts[i][j] !in sep
  }

  /**
    The fields of `s` cut at every leftmost, non-overlapping occurrence of
    `sep`, the first one prefixed by `cur`; empty fields are kept.
   */
  function Fields(s: string, sep: string, cur: string): (r: seq<string>)
    requires |sep| > 0
    ensures |r| > 0
    ensures Join(r, sep) == cur + s
    decreases |s|
  {
    if |s| == 0 then
      assert cur + s == cur;
      [cur]
    else if |sep| <= |s| && s[..|sep|] == sep then
      var rest := Fields(s[|sep|..], sep, "");
      assert ([cur] + rest)[1..] == rest;
      assert s == sep + s[|sep|..];
      [cur] + rest
    else
      assert cur + [s[0]] + s[1..] == cur + s;
      Fields(s[1..], sep, cur + [s[0]])
  }

  /** Ruby drops trailing empty fields from the result of `split`. */
  function DropTrailingEmpty(fields: seq<string>): (r: seq<string>)
    ensures |r| <= |fields| && r == fields[..|r|]
    ensures |r| > 0 ==> r[|r| - 1] != ""
    ensures forall i :: |r| <= i < |fields| ==> fields[i] == ""
  {
    if |fields| == 0 then []
    else if fields[|fields| - 1] == "" then DropTrailingEmpty(fields[..|fields| - 1])
    else fields
  }

  /**
    `s.split(sep)` for a literal, non-blank separator: the pieces, joined
    again, give back the string up to the separators that ended it.
   */
  function Split(s: string, sep: string): (r: seq<string>)
    requires |sep| > 0
    ensures s == "" ==> r == []
    ensures |r| > 0 ==> r[|r| - 1] != "" && Join(r, sep) <= s
  {
    if s == "" then []
    else
      var fields := Fields(s, sep, "");
      var r := DropTrailingEmpty(fields);
      if |r| > 0 then
        assert fields == r + fields[|r|..];
        JoinPrefix(r, fields[|r|..], sep);
        r
      else r
  }

  /** Splitting a join of non-empty parts free of separator characters gives back the parts. */
  lemma SplitOfJoin(parts: seq<string>, sep: string)
    requires |sep| > 0 && |parts| > 0 && FreeOf(parts, sep)
    requires forall i :: 0 <= i < |parts| ==> |parts[i]| > 0
    ensures Split(Join(parts, sep), sep) == parts
  {
    FieldsOfJoin(parts, sep, "");
    assert "" + parts[0] == parts[0];
    assert [parts[0]] + parts[1..] == parts;
    JoinNotEmpty(parts, sep);
  }

  /** A run of characters none of which starts the separator is copied into the current field. */
  lemma {:induction false} FieldsSkip(p: string, rest: string, sep: string, cur: string)
    requires |sep| > 0
    requires forall j :: 0 <= j < |p| ==> p[j] !in sep
    ensures Fields(p + rest, sep, cur) == Fields(rest, sep, cur + p)
    decreases |p|
  {
    if |p| == 0 {
      assert p + rest == rest;
      assert cur + p == cur;
    } else {
      var s := p + rest;
      assert s[0] == p[0] && p[0] !in sep;
      assert |sep| <= |s| ==> s[..|sep|][0] != sep[0];
      assert s[1..] == p[1..] + rest;
      FieldsSkip(p[1..], rest, sep, cur + [p[0]]);
      assert cur + [p[0]] + p[1..] == cur + p;
    }
  }

  /** Splitting a join gives back the parts when no part contains a separator character. */
  lemma {:induction false} FieldsOfJoin(parts: seq<string>, sep: string, cur: string)
    requires |sep| > 0 && |parts| > 0
    requires FreeOf(parts, sep)
    ensures Fields(Join(parts, sep), sep, cur) == [cur + parts[0]] + parts[1..]
    decreases |parts|
  {
    if |parts| == 1 {
      FieldsSkip(parts[0], "", sep, cur);
      assert parts[0] + "" == parts[0];
    } else {
      var tail := Join(parts[1..], sep);
      assert Join(parts, sep) == parts[0] + (sep + tail);
      FieldsSkip(parts[0], sep + tail, sep, cur);
      FieldsAtSeparator(tail, sep, cur + parts[0]);
      FreeOfTail(parts, sep);
      FieldsOfJoin(parts[1..], sep, "");
      assert "" + parts[1..][0] == parts[1];
      assert [parts[1]] + parts[1..][1..] == parts[1..];
    }
  }

  /** A separator at the front closes the current field. */
  lemma FieldsAtSeparator(rest: string, sep: string, cur: string)
    requires |sep| > 0
    ensures Fields(sep + rest, sep, cur) == [cur] + Fields(rest, sep, "")
  {
    assert (sep + rest)[..|sep|] == sep;
    assert (sep + rest)[|sep|..] == rest;
  }

  lemma FreeOfTail(parts: seq<string>, sep: string)
    requires |parts| > 0 && FreeOf(parts, sep)
    ensures FreeOf(parts[1..], sep)
  {
    forall i, j | 0 <= i < |parts[1..]| && 0 <= j < |parts[1..][i]|
      ensures parts[1..][i][j] !in sep
    {
      assert parts[1..][i] == parts[i + 1];
    }
  }
}
