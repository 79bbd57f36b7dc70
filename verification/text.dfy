/**
  The parts of Go's `strings` package the list parsers rely on, written out
  over `seq<char>`: `TrimSpace`, `Split` on one character, `Fields`,
  `ToLower` and `Replace` of one character by another.
*/
module Text {

  /** Go's `unicode.IsSpace`: the ASCII white space, NEL, NBSP and the
      remaining Unicode White_Space characters. */
  const Spaces: set<char> := {
    ' ', '\t', '\n', '\r', '\U{000B}', '\U{000C}', '\U{0085}', '\U{00A0}', '\U{1680}',
    '\U{2000}', '\U{2001}', '\U{2002}', '\U{2003}', '\U{2004}', '\U{2005}',
    '\U{2006}', '\U{2007}', '\U{2008}', '\U{2009}', '\U{200A}',
    '\U{2028}', '\U{2029}', '\U{202F}', '\U{205F}', '\U{3000}'
  }

  predicate IsSpace(c: char) {
    c in Spaces
  }

  predicate AllSpace(s: string) {
    forall i :: 0 <= i < |s| ==> IsSpace(s[i])
  }

  predicate NoSpace(s: string) {
    forall i :: 0 <= i < |s| ==> !IsSpace(s[i])
  }

  /** Drops leading white space: the result is a suffix of `s` that does not
      start with white space, and everything dropped was white space. */
  function TrimLeft(s: string): (r: string)
    ensures |r| <= |s| && r == s[|s| - |r|..]
    ensures |r| > 0 ==> !IsSpace(r[0])
    ensures AllSpace(s[..|s| - |r|])
  {
    if |s| > 0 && IsSpace(s[0]) then
      var r := TrimLeft(s[1..]);
      assert s[1..][..|s[1..]| - |r|] == s[1..|s| - |r|];
      r
    else s
  }

  /** Drops trailing white space: the result is a prefix of `s` that does not
      end with white space, and everything dropped was white space. */
  function TrimRight(s: string): (r: string)
    ensures |r| <= |s| && r == s[..|r|]
    ensures |r| > 0 ==> !IsSpace(r[|r| - 1])
    ensures AllSpace(s[|r|..])
  {
    if |s| > 0 && IsSpace(s[|s| - 1]) then
      var r := TrimRight(s[..|s| - 1]);
      assert s[..|s| - 1][..|r|] == s[..|r|];
      r
    else s
  }

  /** Go's `strings.TrimSpace`. */
  function TrimSpace(s: string): (r: string)
    ensures |r| > 0 ==> !IsSpace(r[0]) && !IsSpace(r[|r| - 1])
    ensures |s| - |r| >= 0
    ensures |r| == 0 <==> AllSpace(s)
  {
    var l := TrimLeft(s);
    var r := TrimRight(l);
    if |r| == 0 then
      assert s == s[..|s| - |l|] + l;
      assert l == l[|r|..];
      r
    else
      assert !IsSpace(s[|s| - |l|]);
      r
  }

  /** `TrimSpace` cuts a slice out of `s` with only white space before and
      after it; with the ends of the result not being white space, the
      slice is the largest such one. */
  lemma TrimSpaceSlice(s: string)
    ensures exists i, j :: 0 <= i <= j <= |s| && TrimSpace(s) == s[i..j] && AllSpace(s[..i]) && AllSpace(s[j..])
  {
    var l := TrimLeft(s);
    var r := TrimRight(l);
    var i := |s| - |l|;
    assert TrimSpace(s) == r;
    assert r == s[i..i + |r|];
    assert AllSpace(s[i + |r|..]) by {
      assert l[|r|..] == s[i + |r|..];
    }
  }

  /** Go's `strings.Split(s, string(sep))`: the pieces between the
      occurrences of `sep`, always at least one. */
  function Split(s: string, sep: char): (r: seq<string>)
    ensures |r| >= 1
    ensures forall k :: 0 <= k < |r| ==> sep !in r[k]
    ensures |r[0]| <= |s| && r[0] == s[..|r[0]|]
    ensures |r[0]| < |s| ==> s[|r[0]|] == sep
    ensures sep !in s ==> r == [s]
  {
    if |s| == 0 then [""]
    else
      var rest := Split(s[1..], sep);
      if s[0] == sep then [""] + rest
      else
        assert s == [s[0]] + s[1..];
        [[s[0]] + rest[0]] + rest[1..]
  }

  /** Go's `strings.Join(parts, string(sep))`. */
  function Join(parts: seq<string>, sep: char): string {
    if |parts| == 0 then ""
    else if |parts| == 1 then parts[0]
    else parts[0] + [sep] + Join(parts[1..], sep)
  }

  /** `Join` of a non-empty tail: the head, the separator, the joined tail. */
  lemma JoinCons(a: string, rest: seq<string>, sep: char)
    requires |rest| >= 1
    ensures Join([a] + rest, sep) == a + [sep] + Join(rest, sep)
  {
    assert ([a] + rest)[1..] == rest;
  }

  /** Joining the pieces of a split with the separator gives back the text. */
  lemma {:induction false} JoinSplit(s: string, sep: char)
    ensures Join(Split(s, sep), sep) == s
  {
    if |s| > 0 {
      JoinSplit(s[1..], sep);
      if s[0] == sep {
        JoinSplitAtSep(s, sep);
      } else {
        JoinSplitInPiece(s, sep);
      }
    }
  }

  /** The step of `JoinSplit` when the text starts with the separator. */
  lemma JoinSplitAtSep(s: string, sep: char)
    requires |s| > 0 && s[0] == sep
    requires Join(Split(s[1..], sep), sep) == s[1..]
    ensures Join(Split(s, sep), sep) == s
  {
    var rest := Split(s[1..], sep);
    assert Split(s, sep) == [""] + rest;
    JoinCons("", rest, sep);
    assert s == [s[0]] + s[1..];
  }

  /** The step of `JoinSplit` when the text starts inside its first piece. */
  lemma JoinSplitInPiece(s: string, sep: char)
    requires |s| > 0 && s[0] != sep
    requires Join(Split(s[1..], sep), sep) == s[1..]
    ensures Join(Split(s, sep), sep) == s
  {
    var rest := Split(s[1..], sep);
    var a := [s[0]] + rest[0];
    assert Split(s, sep) == [a] + rest[1..];
    if |rest| == 1 {
      assert Split(s, sep) == [a];
      assert Join(rest, sep) == rest[0];
    } else {
      JoinCons(rest[0], rest[1..], sep);
      JoinCons(a, rest[1..], sep);
      assert [rest[0]] + rest[1..] == rest;
      assert Join(Split(s, sep), sep) == [s[0]] + (rest[0] + [sep] + Join(rest[1..], sep));
    }
    assert s == [s[0]] + s[1..];
  }

  /** A piece without the separator, then the separator: splitting yields
      that piece followed by the pieces of the rest. */
  lemma {:induction false} SplitAfterPiece(a: string, b: string, sep: char)
    requires sep !in a
    ensures Split(a + [sep] + b, sep) == [a] + Split(b, sep)
  {
    var s := a + [sep] + b;
    if |a| == 0 {
      assert s[1..] == b;
    } else {
      assert s[1..] == a[1..] + [sep] + b;
      SplitAfterPiece(a[1..], b, sep);
      assert [a[0]] + a[1..] == a;
    }
  }

  /** Splitting undoes joining when no piece holds the separator. */
  lemma {:induction false} SplitJoin(parts: seq<string>, sep: char)
    requires |parts| >= 1
    requires forall k :: 0 <= k < |parts| ==> sep !in parts[k]
    ensures Split(Join(parts, sep), sep) == parts
  {
    if |parts| > 1 {
      SplitJoin(parts[1..], sep);
      SplitAfterPiece(parts[0], Join(parts[1..], sep), sep);
      assert [parts[0]] + parts[1..] == parts;
    }
  }

  /** The first maximal run of non-space characters of `s`, which must not
      start with white space. */
  function Word(s: string): (r: string)
    requires |s| > 0 && !IsSpace(s[0])
    ensures 0 < |r| <= |s| && r == s[..|r|]
    ensures NoSpace(r)
    ensures |r| < |s| ==> IsSpace(s[|r|])
  {
    if |s| == 1 || IsSpace(s[1]) then s[..1]
    else
      var w := Word(s[1..]);
      assert s[1..][..|w|] == s[1..|w| + 1];
      [s[0]] + w
  }

  /** A piece `strings.Fields` can return: non-empty, without white space. */
  predicate IsField(w: string) {
    |w| > 0 && NoSpace(w)
  }

  /** Go's `strings.Fields`: the non-empty runs of non-space characters. */
  function Fields(s: string): (r: seq<string>)
    ensures forall k :: 0 <= k < |r| ==> IsField(r[k])
    ensures |r| == 0 <==> AllSpace(s)
    decreases |s|
  {
    if |s| == 0 then []
    else if IsSpace(s[0]) then
      assert AllSpace(s) <==> AllSpace(s[1..]) by {
        assert forall i :: 0 < i < |s| ==> s[i] == s[1..][i - 1];
      }
      Fields(s[1..])
    else
      var w := Word(s);
      assert IsField(w);
      [w] + Fields(s[|w|..])
  }

  /** A field followed by nothing or by white space is the word there. */
  lemma WordOfField(w: string, rest: string)
    requires IsField(w) && (|rest| == 0 || IsSpace(rest[0]))
    ensures Word(w + rest) == w
  {
    var s := w + rest;
    var r := Word(s);
    assert forall k :: 0 <= k < |r| ==> !IsSpace(s[k]);
    assert forall k :: 0 <= k < |w| ==> s[k] == w[k];
    assert |rest| > 0 ==> s[|w|] == rest[0];
    assert |r| == |w|;
    assert r == s[..|w|] == w;
  }

  /** `Fields` takes apart text made of fields joined by single spaces: the
      runs it finds are exactly the fields, in order. */
  lemma {:induction false} FieldsJoin(ws: seq<string>)
    requires forall k :: 0 <= k < |ws| ==> IsField(ws[k])
    ensures Fields(Join(ws, ' ')) == ws
  {
    if |ws| == 1 {
      WordOfField(ws[0], "");
      assert ws[0] + "" == ws[0];
      assert ws[0][|ws[0]|..] == "";
    } else if |ws| > 1 {
      var w := ws[0];
      var tail := Join(ws[1..], ' ');
      var s := w + [' '] + tail;
      assert Join(ws, ' ') == s;
      WordOfField(w, [' '] + tail);
      assert s == w + ([' '] + tail);
      assert s[|w|..] == [' '] + tail;
      assert ([' '] + tail)[1..] == tail;
      FieldsJoin(ws[1..]);
      assert [w] + ws[1..] == ws;
    }
  }

  /** Leading white space does not change the fields. */
  lemma {:induction false} FieldsSkipSpace(p: string, s: string)
    requires AllSpace(p)
    ensures Fields(p + s) == Fields(s)
    decreases |p|
  {
    if |p| == 0 {
      assert p + s == s;
    } else {
      assert IsSpace((p + s)[0]);
      assert (p + s)[1..] == p[1..] + s;
      FieldsSkipSpace(p[1..], s);
    }
  }

  /** A field, then any non-empty run of white space (spaces, tabs, line
      ends): the field comes first, then the fields of the rest. */
  lemma FieldsAfterField(w: string, sep: string, rest: string)
    requires IsField(w) && |sep| > 0 && AllSpace(sep)
    ensures Fields(w + sep + rest) == [w] + Fields(rest)
  {
    var s := w + sep + rest;
    assert s == w + (sep + rest);
    WordOfField(w, sep + rest);
    assert s[|w|..] == sep + rest;
    FieldsSkipSpace(sep, rest);
  }

  /** Each field followed by its separator, concatenated. */
  function Interleave(ws: seq<string>, seps: seq<string>): string
    requires |seps| == |ws|
  {
    if |ws| == 0 then [] else ws[0] + seps[0] + Interleave(ws[1..], seps[1..])
  }

  /** `Fields` takes apart text made of fields separated by runs of white
      space of any length and mix, with white space allowed before the
      first field and after the last: the runs it finds are exactly the
      fields, in order. */
  lemma FieldsOfSeparated(lead: string, ws: seq<string>, seps: seq<string>)
    requires AllSpace(lead) && |seps| == |ws|
    requires forall k :: 0 <= k < |ws| ==> IsField(ws[k])
    requires forall k :: 0 <= k < |seps| ==> AllSpace(seps[k])
    requires forall k :: 0 <= k < |seps| - 1 ==> |seps[k]| > 0
    ensures Fields(lead + Interleave(ws, seps)) == ws
  {
    FieldsSkipSpace(lead, Interleave(ws, seps));
    FieldsOfInterleave(ws, seps);
  }

  lemma {:induction false} FieldsOfInterleave(ws: seq<string>, seps: seq<string>)
    requires |seps| == |ws|
    requires forall k :: 0 <= k < |ws| ==> IsField(ws[k])
    requires forall k :: 0 <= k < |seps| ==> AllSpace(seps[k])
    requires forall k :: 0 <= k < |seps| - 1 ==> |seps[k]| > 0
    ensures Fields(Interleave(ws, seps)) == ws
  {
    if |ws| == 1 && |seps[0]| == 0 {
      assert Interleave(ws, seps) == ws[0] + [] + [];
      assert ws[0] + [] + [] == ws[0] + "";
      WordOfField(ws[0], "");
      assert ws[0][|ws[0]|..] == "";
    } else if |ws| > 0 {
      FieldsOfInterleave(ws[1..], seps[1..]);
      FieldsAfterField(ws[0], seps[0], Interleave(ws[1..], seps[1..]));
      assert [ws[0]] + ws[1..] == ws;
    }
  }

  /** Go's `strings.ToLower`, for the ASCII letters. */
  function ToLowerChar(c: char): char {
    if 'A' <= c <= 'Z' then (c as int + 32) as char else c
  }

  predicate IsLower(s: string) {
    forall i :: 0 <= i < |s| ==> !('A' <= s[i] <= 'Z')
  }

  function ToLower(s: string): (r: string)
    ensures |r| == |s|
    ensures IsLower(r)
    ensures forall i :: 0 <= i < |s| ==> r[i] == ToLowerChar(s[i])
  {
    seq(|s|, i requires 0 <= i < |s| => ToLowerChar(s[i]))
  }

  /** Lower-casing is idempotent, and leaves lower-case text unchanged. */
  lemma ToLowerIdempotent(s: string)
    ensures ToLower(ToLower(s)) == ToLower(s)
    ensures IsLower(s) ==> ToLower(s) == s
  {
  }

  /** Go's `strings.Replace(s, string(from), string(to), -1)` for one
      character: every occurrence of `from` becomes `to`. */
  function ReplaceAll(s: string, from: char, to: char): (r: string)
    ensures |r| == |s|
    ensures from != to ==> from !in r
    ensures forall i :: 0 <= i < |s| && s[i] != from ==> r[i] == s[i]
    ensures forall i :: 0 <= i < |s| && s[i] == from ==> r[i] == to
  {
    seq(|s|, i requires 0 <= i < |s| => if s[i] == from then to else s[i])
  }

  /** Go's `strings.HasPrefix`. */
  predicate HasPrefix(s: string, prefix: string) {
    |prefix| <= |s| && s[..|prefix|] == prefix
  }
}
