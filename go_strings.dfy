/**
 * The parts of Go's `strings` package that the parsers of the core rely on:
 * `Split` on a one-character separator, `SplitN(s, sep, 2)`, `Fields`,
 * `TrimSpace`, `Trim` with a cut set, `HasPrefix`, `Contains` and ASCII `ToUpper`.
 * Strings are sequences of Unicode code points.
 */
module GoStrings {

  /**
   * White space as `unicode.IsSpace` defines it: tab, line feed, vertical
   * tab, form feed, carriage return, blank, U+0085 and U+00A0, and the
   * other characters of Unicode's White_Space property.
   */
  const SpaceChars: set<char> := {
    ' ', '\t', '\n', '\r', '\U{B}', '\U{C}', '\U{85}', '\U{A0}', '\U{1680}',
    '\U{2000}', '\U{2001}', '\U{2002}', '\U{2003}', '\U{2004}', '\U{2005}', '\U{2006}',
    '\U{2007}', '\U{2008}', '\U{2009}', '\U{200A}', '\U{2028}', '\U{2029}', '\U{202F}',
    '\U{205F}', '\U{3000}'}

  predicate IsSpace(c: char) {
    c in SpaceChars
  }

  /** Position of the first `c` in `s`, or -1 (Go's `strings.IndexByte`). */
  function IndexOf(s: string, c: char): (r: int)
    ensures -1 <= r < |s|
    ensures r == -1 <==> c !in s
    ensures 0 <= r ==> s[r] == c && c !in s[..r]
  {
    if |s| == 0 then -1
    else if s[0] == c then 0
    else
      var k := IndexOf(s[1..], c);
      assert s[1..][..if k < 0 then 0 else k] == s[1..1 + if k < 0 then 0 else k];
      if k == -1 then -1 else k + 1
  }

  /** Glues pieces back together with `sep` between neighbours (Go's `strings.Join`). */
  function Joined(parts: seq<string>, sep: char): string
  {
    if |parts| == 0 then ""
    else if |parts| == 1 then parts[0]
    else parts[0] + [sep] + Joined(parts[1..], sep)
  }

  /** `strings.Split(s, string(sep))`: the pieces between separators; never empty. */
  function Split(s: string, sep: char): (r: seq<string>)
    ensures |r| >= 1
    decreases |s|
  {
    var k := IndexOf(s, sep);
    if k == -1 then [s] else [s[..k]] + Split(s[k + 1..], sep)
  }

  /** No piece of a split holds the separator. */
  lemma {:induction false} SplitPiecesLackSep(s: string, sep: char)
    ensures forall i :: 0 <= i < |Split(s, sep)| ==> sep !in Split(s, sep)[i]
    decreases |s|
  {
    var k := IndexOf(s, sep);
    if k != -1 {
      var rest := Split(s[k + 1..], sep);
      SplitPiecesLackSep(s[k + 1..], sep);
      assert Split(s, sep) == [s[..k]] + rest;
    }
  }

  /** Round trip: the pieces of a split, joined again with the separator, give the string back. */
  lemma {:induction false} SplitJoined(s: string, sep: char)
    ensures Joined(Split(s, sep), sep) == s
    decreases |s|
  {
    var k := IndexOf(s, sep);
    if k != -1 {
      var rest := Split(s[k + 1..], sep);
      SplitJoined(s[k + 1..], sep);
      var parts := [s[..k]] + rest;
      assert Split(s, sep) == parts;
      assert parts[1..] == rest;
      assert Joined(parts, sep) == s[..k] + [sep] + Joined(rest, sep);
      assert s == s[..k] + [sep] + s[k + 1..];
    }
  }

  /** The other direction: pieces free of the separator, joined and split again, come back unchanged. */
  lemma {:induction false} SplitOfJoined(parts: seq<string>, sep: char)
    requires |parts| >= 1
    requires forall i :: 0 <= i < |parts| ==> sep !in parts[i]
    ensures Split(Joined(parts, sep), sep) == parts
  {
    var s := Joined(parts, sep);
    if |parts| == 1 {
      assert IndexOf(s, sep) == -1;
    } else {
      var p := parts[0];
      assert s == p + [sep] + Joined(parts[1..], sep);
      var k := IndexOf(s, sep);
      assert s[|p|] == sep;
      assert s[..k] == p;
      assert s[k + 1..] == Joined(parts[1..], sep);
      SplitOfJoined(parts[1..], sep);
      assert parts == [p] + parts[1..];
    }
  }

  /** The first piece of a split runs up to the first separator. */
  lemma SplitFirst(s: string, sep: char)
    ensures |Split(s, sep)[0]| <= |s| && Split(s, sep)[0] == s[..|Split(s, sep)[0]|]
    ensures |Split(s, sep)[0]| < |s| ==> s[|Split(s, sep)[0]|] == sep
  {
  }

  /** `strings.SplitN(s, string(sep), 2)`: cut at the first separator only. */
  function SplitN2(s: string, sep: char): (r: seq<string>)
    ensures 1 <= |r| <= 2
    ensures |r| == 1 <==> sep !in s
    ensures |r| == 1 ==> r[0] == s
    ensures |r| == 2 ==> sep !in r[0] && s == r[0] + [sep] + r[1]
  {
    var k := IndexOf(s, sep);
    if k == -1 then [s]
    else
      assert s == s[..k] + [sep] + s[k + 1..];
      [s[..k], s[k + 1..]]
  }

  /** Length of the run of non-space characters that starts `s`. */
  function WordEnd(s: string): (n: nat)
    requires |s| > 0 && !IsSpace(s[0])
    ensures 0 < n <= |s|
    ensures n < |s| ==> IsSpace(s[n])
    ensures forall j :: 0 <= j < n ==> !IsSpace(s[j])
  {
    if |s| == 1 || IsSpace(s[1]) then 1 else 1 + WordEnd(s[1..])
  }

  predicate NoSpace(w: string) {
    forall j :: 0 <= j < |w| ==> !IsSpace(w[j])
  }

  /** Visible ASCII characters only. */
  predicate Graphic(w: string) {
    forall j :: 0 <= j < |w| ==> '!' <= w[j] <= '~'
  }

  lemma GraphicNoSpace(w: string)
    requires Graphic(w)
    ensures NoSpace(w)
  {
  }

  /** `strings.Fields`: the maximal runs of non-space characters, in order. */
  function Fields(s: string): (r: seq<string>)
    ensures forall i :: 0 <= i < |r| ==> |r[i]| > 0 && NoSpace(r[i])
    decreases |s|
  {
    if |s| == 0 then []
    else if IsSpace(s[0]) then Fields(s[1..])
    else
      var n := WordEnd(s);
      [s[..n]] + Fields(s[n..])
  }

  /** Words separated by single blanks: the line that `Fields` takes apart again. */
  function Unwords(ws: seq<string>): string
  {
    if |ws| == 0 then ""
    else if |ws| == 1 then ws[0]
    else ws[0] + " " + Unwords(ws[1..])
  }

  lemma {:induction false} FieldsOfWordThenRest(w: string, rest: string)
    requires |w| > 0 && NoSpace(w)
    requires rest == [] || IsSpace(rest[0])
    ensures Fields(w + rest) == [w] + Fields(rest)
  {
    var s := w + rest;
    WordEndOf(w, rest);
    assert s[..|w|] == w;
    assert s[|w|..] == rest;
  }

  lemma {:induction false} WordEndOf(w: string, rest: string)
    requires |w| > 0 && NoSpace(w)
    requires rest == [] || IsSpace(rest[0])
    ensures WordEnd(w + rest) == |w|
  {
    var s := w + rest;
    if |w| == 1 {
    } else {
      assert s[1..] == w[1..] + rest;
      WordEndOf(w[1..], rest);
    }
  }

  /** Round trip: splitting blank-separated words into fields gives the words back. */
  lemma {:induction false} FieldsOfUnwords(ws: seq<string>)
    requires forall i :: 0 <= i < |ws| ==> |ws[i]| > 0 && NoSpace(ws[i])
    ensures Fields(Unwords(ws)) == ws
  {
    if |ws| == 0 {
    } else if |ws| == 1 {
      FieldsOfWordThenRest(ws[0], "");
      assert ws[0] + "" == ws[0];
    } else {
      var rest := " " + Unwords(ws[1..]);
      assert Unwords(ws) == ws[0] + rest;
      FieldsOfWordThenRest(ws[0], rest);
      assert rest[1..] == Unwords(ws[1..]);
      FieldsOfUnwords(ws[1..]);
      assert ws == [ws[0]] + ws[1..];
    }
  }

  /** Words written out with single blanks and followed by a blank-led tail: `Fields` gives the words, then the tail's fields. */
  lemma {:induction false} FieldsOfUnwordsThen(ws: seq<string>, rest: string)
    requires |ws| > 0
    requires forall i :: 0 <= i < |ws| ==> |ws[i]| > 0 && NoSpace(ws[i])
    requires rest == [] || IsSpace(rest[0])
    ensures Fields(Unwords(ws) + rest) == ws + Fields(rest)
  {
    if |ws| == 1 {
      FieldsOfWordThenRest(ws[0], rest);
    } else {
      var more := Unwords(ws[1..]) + rest;
      assert Unwords(ws) + rest == ws[0] + (" " + more) by {
        UnwordsThen(ws, rest);
      }
      assert Fields(ws[0] + (" " + more)) == [ws[0]] + Fields(" " + more) by {
        FieldsOfWordThenRest(ws[0], " " + more);
      }
      assert Fields(" " + more) == Fields(more) by {
        FieldsSkipLeading(" " + more, 1);
        assert (" " + more)[1..] == more;
      }
      assert Fields(more) == ws[1..] + Fields(rest) by {
        FieldsOfUnwordsThen(ws[1..], rest);
      }
      assert ws == [ws[0]] + ws[1..];
    }
  }

  lemma UnwordsThen(ws: seq<string>, rest: string)
    requires |ws| > 1
    ensures Unwords(ws) + rest == ws[0] + (" " + (Unwords(ws[1..]) + rest))
  {
  }

  /** Blanks in front do not change the fields. */
  lemma {:induction false} FieldsSkipLeading(s: string, a: nat)
    requires a <= |s|
    requires forall j :: 0 <= j < a ==> IsSpace(s[j])
    ensures Fields(s[a..]) == Fields(s)
  {
    if a > 0 {
      assert s[1..][a - 1..] == s[a..];
      FieldsSkipLeading(s[1..], a - 1);
    }
  }

  /** Blanks at the end do not change the fields. */
  lemma {:induction false} FieldsSkipTrailing(s: string, blanks: string)
    requires forall j :: 0 <= j < |blanks| ==> IsSpace(blanks[j])
    ensures Fields(s + blanks) == Fields(s)
    decreases |s|
  {
    var t := s + blanks;
    if |s| == 0 {
      assert t == blanks;
      FieldsSkipLeading(blanks, |blanks|);
    } else if IsSpace(s[0]) {
      assert t[1..] == s[1..] + blanks;
      FieldsSkipTrailing(s[1..], blanks);
    } else {
      var n := WordEnd(s);
      var w, rest := s[..n], s[n..] + blanks;
      assert t == w + rest;
      WordEndOf(w, rest);
      assert t[..n] == s[..n];
      assert t[n..] == s[n..] + blanks;
      FieldsSkipTrailing(s[n..], blanks);
    }
  }

  /** `strings.Fields(strings.TrimSpace(s))` is `strings.Fields(s)`: trimming first changes nothing. */
  lemma FieldsOfTrimSpace(s: string)
    ensures Fields(TrimSpace(s)) == Fields(s)
  {
    var a := LeadingIn(s, SpaceChars);
    FieldsSkipLeading(s, a);
    if a < |s| {
      var u := s[a..];
      var b := TrailingIn(u, SpaceChars);
      assert u == u[..|u| - b] + u[|u| - b..];
      FieldsSkipTrailing(u[..|u| - b], u[|u| - b..]);
    }
  }

  /** Number of leading characters of `s` that lie in `cut`. */
  function LeadingIn(s: string, cut: set<char>): (n: nat)
    ensures n <= |s|
    ensures forall j :: 0 <= j < n ==> s[j] in cut
    ensures n < |s| ==> s[n] !in cut
  {
    if |s| == 0 || s[0] !in cut then 0 else 1 + LeadingIn(s[1..], cut)
  }

  /** Number of trailing characters of `s` that lie in `cut`. */
  function TrailingIn(s: string, cut: set<char>): (n: nat)
    ensures n <= |s|
    ensures forall j :: |s| - n <= j < |s| ==> s[j] in cut
    ensures n < |s| ==> s[|s| - n - 1] !in cut
  {
    if |s| == 0 || s[|s| - 1] !in cut then 0 else 1 + TrailingIn(s[..|s| - 1], cut)
  }

  /** `strings.Trim(s, cutset)`: drop leading and trailing characters of `cut`. */
  function Trim(s: string, cut: set<char>): (r: string)
    ensures |r| <= |s|
    ensures r == [] || (r[0] !in cut && r[|r| - 1] !in cut)
  {
    var a := LeadingIn(s, cut);
    if a == |s| then ""
    else
      var b := TrailingIn(s[a..], cut);
      s[a..][..|s[a..]| - b]
  }

  /** Nothing to cut at either end: `Trim` leaves the string alone. */
  lemma TrimUnchanged(s: string, cut: set<char>)
    requires s == [] || (s[0] !in cut && s[|s| - 1] !in cut)
    ensures Trim(s, cut) == s
  {
    if s != [] {
      assert LeadingIn(s, cut) == 0;
      assert s[0..] == s;
      assert TrailingIn(s, cut) == 0;
    }
  }

  /** One character of `cut` after a string that ends outside `cut` is all that `Trim` removes. */
  lemma TrimTrailing(s: string, c: char, cut: set<char>)
    requires |s| > 0 && s[0] !in cut && s[|s| - 1] !in cut && c in cut
    ensures Trim(s + [c], cut) == s
  {
    var t := s + [c];
    assert LeadingIn(t, cut) == 0;
    assert t[0..] == t;
    assert t[..|t| - 1] == s;
    assert TrailingIn(s, cut) == 0;
    assert TrailingIn(t, cut) == 1;
  }

  /** `strings.TrimSpace`. */
  function TrimSpace(s: string): (r: string)
    ensures r == [] || (!IsSpace(r[0]) && !IsSpace(r[|r| - 1]))
  {
    Trim(s, SpaceChars)
  }

  predicate HasPrefix(s: string, p: string) {
    |p| <= |s| && s[..|p|] == p
  }

  /** `strings.TrimPrefix`. */
  function TrimPrefix(s: string, p: string): (r: string)
    ensures HasPrefix(s, p) ==> s == p + r
    ensures !HasPrefix(s, p) ==> r == s
  {
    if HasPrefix(s, p) then s[|p|..] else s
  }

  /** `strings.Contains`. */
  predicate Contains(s: string, sub: string) {
    exists i :: 0 <= i <= |s| - |sub| && OccursAt(s, sub, i)
  }

  predicate OccursAt(s: string, sub: string, i: int) {
    0 <= i <= |s| - |sub| && s[i..i + |sub|] == sub
  }

  /** ASCII upper-casing (the only letters `strings.ToUpper` meets here). */
  function ToUpper(s: string): (r: string)
    ensures |r| == |s|
    ensures forall i :: 0 <= i < |s| ==> r[i] == UpperChar(s[i])
  {
    if |s| == 0 then "" else [UpperChar(s[0])] + ToUpper(s[1..])
  }

  function UpperChar(c: char): char {
    if 'a' <= c <= 'z' then (c as int - 'a' as int + 'A' as int) as char else c
  }
}
