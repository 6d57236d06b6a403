/** The string operations the scraper and the emitters rely on: Go's
    `strings.Index`, `strings.Contains`, `strings.Fields`,
    `strings.ReplaceAll`, and the line splitting of `bufio.Scanner`. */
module Text {

  /** Go's `unicode.IsSpace`: the Latin-1 spaces and the other Unicode
      White_Space characters. */
  predicate IsSpace(c: char) {
    var n := c as int;
    (9 <= n <= 13) || n == 0x20 || n == 0x85 || n == 0xA0 || n == 0x1680
    || (0x2000 <= n <= 0x200A) || n == 0x2028 || n == 0x2029 || n == 0x202F
    || n == 0x205F || n == 0x3000
  }

  // ---------------------------------------------------------------------
  // Substring search

  predicate OccursAt(s: string, sub: string, i: int) {
    0 <= i && i + |sub| <= |s| && s[i..i + |sub|] == sub
  }

  /** `strings.Index`: the position of the first occurrence of `sub` in `s`,
      or -1 when there is none. */
  function Index(s: string, sub: string): (i: int)
    decreases |s|
    ensures -1 <= i
    ensures i >= 0 ==> OccursAt(s, sub, i)
    ensures i >= 0 ==> forall j :: 0 <= j < i ==> !OccursAt(s, sub, j)
    ensures i == -1 ==> forall j :: !OccursAt(s, sub, j)
  {
    if |sub| > |s| then -1
    else if s[..|sub|] == sub then
      assert OccursAt(s, sub, 0);
      0
    else
      var k := Index(s[1..], sub);
      IndexStep(s, sub, k);
      if k < 0 then -1 else k + 1
  }

  /** The recursive case of `Index`: no occurrence at 0, so the first
      occurrence in `s` is one past the first occurrence in `s[1..]`. */
  lemma IndexStep(s: string, sub: string, k: int)
    requires |sub| <= |s| && s[..|sub|] != sub && -1 <= k
    requires k >= 0 ==> OccursAt(s[1..], sub, k)
    requires k >= 0 ==> forall j :: 0 <= j < k ==> !OccursAt(s[1..], sub, j)
    requires k == -1 ==> forall j :: !OccursAt(s[1..], sub, j)
    ensures k >= 0 ==> OccursAt(s, sub, k + 1)
    ensures k >= 0 ==> forall j :: 0 <= j < k + 1 ==> !OccursAt(s, sub, j)
    ensures k == -1 ==> forall j :: !OccursAt(s, sub, j)
  {
    assert !OccursAt(s, sub, 0);
    forall j | 0 <= j
      ensures OccursAt(s, sub, j + 1) == OccursAt(s[1..], sub, j)
    {
      if j + 1 + |sub| <= |s| {
        assert s[1..][j..j + |sub|] == s[j + 1..j + 1 + |sub|];
      }
    }
    forall j | 1 <= j
      ensures OccursAt(s, sub, j) == OccursAt(s[1..], sub, j - 1)
    {
      assert OccursAt(s, sub, (j - 1) + 1) == OccursAt(s[1..], sub, j - 1);
    }
  }

  /** `strings.Contains`: whether `sub` occurs anywhere in `s`. */
  function Contains(s: string, sub: string): (b: bool)
    ensures b <==> exists j :: OccursAt(s, sub, j)
  {
    Index(s, sub) >= 0
  }

  // ---------------------------------------------------------------------
  // Line splitting

  /** Text without a newline. */
  predicate IsLine(l: string) {
    forall i :: 0 <= i < |l| ==> l[i] != '\n'
  }

  /** The tokens `bufio.Scanner` yields with its default line splitting:
      the text between newlines, where a final line without a newline still
      counts and the empty text after a final newline does not. Defined one
      character at a time: a newline closes the current (possibly empty)
      line, any other character is put in front of the first line of the
      rest. */
  function Lines(s: string): (ls: seq<string>)
    decreases |s|
    ensures forall k :: 0 <= k < |ls| ==> IsLine(ls[k])
  {
    if s == [] then []
    else
      var rest := Lines(s[1..]);
      if s[0] == '\n' then [[]] + rest
      else if rest == [] then [[s[0]]]
      else
        var l := [s[0]] + rest[0];
        assert IsLine(l) by {
          assert forall i :: 1 <= i < |l| ==> l[i] == rest[0][i - 1];
        }
        [l] + rest[1..]
  }

  /** Non-empty text has at least one line. */
  lemma LinesNonEmpty(s: string)
    requires s != []
    ensures Lines(s) != []
  {
  }

  /** The text of `ls`, each line followed by a newline. */
  function Unlines(ls: seq<string>): string {
    if ls == [] then [] else ls[0] + "\n" + Unlines(ls[1..])
  }

  /** Splitting and re-joining gives the text back, with a newline added
      when the text did not end with one. */
  lemma {:induction false} UnlinesLines(s: string)
    ensures Unlines(Lines(s)) == if s == [] || s[|s| - 1] == '\n' then s else s + "\n"
    decreases |s|
  {
    if s != [] {
      var t := s[1..];
      var rest := Lines(t);
      UnlinesLines(t);
      assert s == [s[0]] + t;
      if s[0] == '\n' {
        assert ([[]] + rest)[1..] == rest;
        assert Unlines(Lines(s)) == "\n" + Unlines(rest);
      } else if rest == [] {
        assert t == [];
        assert Unlines([[s[0]]]) == [s[0]] + "\n";
      } else {
        var ls := [[s[0]] + rest[0]] + rest[1..];
        assert ls[1..] == rest[1..];
        assert Unlines(ls) == [s[0]] + (rest[0] + "\n" + Unlines(rest[1..]));
        assert Unlines(rest) == rest[0] + "\n" + Unlines(rest[1..]);
        assert t != [] && t[|t| - 1] == s[|s| - 1];
      }
    }
  }

  /** A line followed by a newline is that one line. */
  lemma {:induction false} LinesOfLine(l: string)
    requires IsLine(l)
    ensures Lines(l + "\n") == [l]
    decreases |l|
  {
    if l == [] {
      assert [] + "\n" == "\n";
      assert Lines("\n"[1..]) == [];
    } else {
      var s := l + "\n";
      assert s[1..] == l[1..] + "\n";
      assert IsLine(l[1..]) by {
        assert forall i :: 0 <= i < |l| - 1 ==> l[1..][i] == l[i + 1];
      }
      LinesOfLine(l[1..]);
      assert [l[0]] + l[1..] == l;
    }
  }

  /** Joining lines that hold no newline and splitting again gives the same
      lines back. */
  lemma {:induction false} LinesUnlines(ls: seq<string>)
    requires forall k :: 0 <= k < |ls| ==> IsLine(ls[k])
    ensures Lines(Unlines(ls)) == ls
    decreases |ls|
  {
    if ls != [] {
      var first := ls[0] + "\n";
      assert Unlines(ls) == first + Unlines(ls[1..]);
      LinesAppend(first, Unlines(ls[1..]));
      LinesOfLine(ls[0]);
      LinesUnlines(ls[1..]);
      assert ls == [ls[0]] + ls[1..];
    }
  }

  /** Text that ends with a newline splits independently of what follows. */
  lemma {:induction false} LinesAppend(a: string, b: string)
    requires a == [] || a[|a| - 1] == '\n'
    ensures Lines(a + b) == Lines(a) + Lines(b)
    decreases |a|
  {
    if a == [] {
      assert a + b == b;
    } else {
      var t := a[1..];
      assert (a + b)[0] == a[0];
      assert (a + b)[1..] == t + b;
      if t != [] {
        assert t[|t| - 1] == a[|a| - 1];
      }
      LinesAppend(t, b);
      if a[0] == '\n' {
        assert Lines(a + b) == [[]] + (Lines(t) + Lines(b));
      } else {
        LinesNonEmpty(t);
        LinesGlue(a[0], t, Lines(b));
      }
    }
  }

  /** A character other than a newline joins the first line of the rest;
      the step of `LinesAppend` for such a character. */
  lemma LinesGlue(c: char, t: string, tail: seq<string>)
    requires c != '\n' && Lines(t) != []
    ensures var rt := Lines(t);
      [[c] + (rt + tail)[0]] + (rt + tail)[1..] == Lines([c] + t) + tail
  {
    var rt := Lines(t);
    assert [c] + t != [] && ([c] + t)[0] == c && ([c] + t)[1..] == t;
    assert Lines([c] + t) == [[c] + rt[0]] + rt[1..];
    assert (rt + tail)[0] == rt[0];
    assert (rt + tail)[1..] == rt[1..] + tail;
  }

  // ---------------------------------------------------------------------
  // Whitespace-separated fields

  /** A non-empty run of non-space characters. */
  predicate IsWord(w: string) {
    w != [] && forall i :: 0 <= i < |w| ==> !IsSpace(w[i])
  }

  /** The length of the word `s` starts with. */
  function WordLength(s: string): (n: nat)
    requires s != [] && !IsSpace(s[0])
    decreases |s|
    ensures 1 <= n <= |s|
    ensures IsWord(s[..n])
    ensures n < |s| ==> IsSpace(s[n])
  {
    if |s| == 1 || IsSpace(s[1]) then 1
    else
      var n := 1 + WordLength(s[1..]);
      assert s[..n] == [s[0]] + s[1..][..n - 1];
      n
  }

  /** `strings.Fields`: the maximal runs of non-space characters of `s`, in
      order. */
  function Fields(s: string): (fs: seq<string>)
    decreases |s|
    ensures forall k :: 0 <= k < |fs| ==> IsWord(fs[k])
  {
    if s == [] then []
    else if IsSpace(s[0]) then Fields(s[1..])
    else
      var n := WordLength(s);
      [s[..n]] + Fields(s[n..])
  }

  /** `strings.Join(ws, " ")`. */
  function JoinWords(ws: seq<string>): string {
    if ws == [] then []
    else if |ws| == 1 then ws[0]
    else ws[0] + " " + JoinWords(ws[1..])
  }

  /** Leading white space does not change the fields. */
  lemma {:induction false} FieldsSkipSpaces(sp: string, s: string)
    requires forall i :: 0 <= i < |sp| ==> IsSpace(sp[i])
    ensures Fields(sp + s) == Fields(s)
    decreases |sp|
  {
    if sp != [] {
      assert (sp + s)[0] == sp[0];
      assert (sp + s)[1..] == sp[1..] + s;
      FieldsSkipSpaces(sp[1..], s);
    } else {
      assert sp + s == s;
    }
  }

  /** A word followed by nothing or by white space is the first field, and
      the fields of what follows come after it. */
  lemma FieldsOfWord(w: string, t: string)
    requires IsWord(w)
    requires t == [] || IsSpace(t[0])
    ensures Fields(w + t) == [w] + Fields(t)
  {
    var s := w + t;
    var n := WordLength(s);
    assert forall m :: 0 <= m < |w| ==> s[m] == w[m];
    forall m | |w| < m <= |s|
      ensures !IsWord(s[..m])
    {
      assert s[..m][|w|] == t[0];
    }
    assert s[..n] == w;
    assert s[n..] == t;
  }

  /** Splitting words joined by single spaces gives the words back. */
  lemma {:induction false} FieldsJoinWords(ws: seq<string>)
    requires forall k :: 0 <= k < |ws| ==> IsWord(ws[k])
    ensures Fields(JoinWords(ws)) == ws
    decreases |ws|
  {
    if |ws| == 1 {
      FieldsOfWord(ws[0], "");
      assert ws[0] + "" == ws[0];
    } else if |ws| > 1 {
      var rest := ws[1..];
      var tail := JoinWords(rest);
      assert JoinWords(ws) == ws[0] + (" " + tail);
      assert (" " + tail)[0] == ' ';
      FieldsOfWord(ws[0], " " + tail);
      FieldsSkipSpaces(" ", tail);
      assert forall k :: 0 <= k < |rest| ==> rest[k] == ws[k + 1];
      FieldsJoinWords(rest);
      assert ws == [ws[0]] + rest;
    }
  }

  // ---------------------------------------------------------------------
  // Replacement

  /** `strings.ReplaceAll` for a non-empty `old`: every occurrence of `old`
      found scanning left to right, without overlaps, is replaced by `new`. */
  function ReplaceAll(s: string, pat: string, rep: string): (r: string)
    requires pat != []
    ensures !Contains(s, pat) ==> r == s
    decreases |s|
  {
    var i := Index(s, pat);
    if i < 0 then s else s[..i] + rep + ReplaceAll(s[i + |pat|..], pat, rep)
  }

  /** A leading occurrence of `old` is replaced, and the rest of the text is
      processed on its own. */
  lemma ReplaceAllLeading(pat: string, t: string, rep: string)
    requires pat != []
    ensures ReplaceAll(pat + t, pat, rep) == rep + ReplaceAll(t, pat, rep)
  {
    var s := pat + t;
    assert s[..|pat|] == pat;
    assert Index(s, pat) == 0;
    assert s[..0] == [] && s[|pat|..] == t;
    calc {
      ReplaceAll(s, pat, rep);
      s[..0] + rep + ReplaceAll(s[|pat|..], pat, rep);
      rep + ReplaceAll(t, pat, rep);
    }
  }

  /** The first occurrence of `old` is the one after `x` when no
      occurrence starts inside `x`: everything before it is kept, it is
      replaced, and the rest is processed on its own. */
  lemma ReplaceAllStep(x: string, pat: string, y: string, rep: string)
    requires pat != [] && !Contains(x + pat[..|pat| - 1], pat)
    ensures ReplaceAll(x + pat + y, pat, rep) == x + rep + ReplaceAll(y, pat, rep)
  {
    var s := x + pat + y;
    var pre := x + pat[..|pat| - 1];
    assert s[|x|..|x| + |pat|] == pat;
    assert OccursAt(s, pat, |x|);
    forall j | 0 <= j < |x|
      ensures !OccursAt(s, pat, j)
    {
      assert s[j..j + |pat|] == pre[j..j + |pat|];
      assert !OccursAt(pre, pat, j);
    }
    assert Index(s, pat) == |x|;
    assert s[..|x|] == x && s[|x| + |pat|..] == y;
  }

  /** `parts` with `sep` between each two of them. */
  function Interleave(parts: seq<string>, sep: string): string
    requires parts != []
  {
    if |parts| == 1 then parts[0] else parts[0] + sep + Interleave(parts[1..], sep)
  }

  /** Replacing every occurrence of `old` in text made of pieces separated
      by `old`, where no occurrence starts inside a piece, puts `new`
      between the pieces instead. */
  lemma {:induction false} ReplaceAllInterleave(parts: seq<string>, pat: string, rep: string)
    requires pat != [] && parts != []
    requires forall i :: 0 <= i < |parts| - 1 ==> !Contains(parts[i] + pat[..|pat| - 1], pat)
    requires !Contains(parts[|parts| - 1], pat)
    ensures ReplaceAll(Interleave(parts, pat), pat, rep) == Interleave(parts, rep)
    decreases |parts|
  {
    if |parts| == 1 {
      assert ReplaceAll(parts[0], pat, rep) == parts[0];
    } else {
      var rest := parts[1..];
      assert forall i :: 0 <= i < |rest| ==> rest[i] == parts[i + 1];
      ReplaceAllInterleave(rest, pat, rep);
      assert !Contains(parts[0] + pat[..|pat| - 1], pat);
      ReplaceAllInterleaveStep(parts, pat, rep);
    }
  }

  /** The step of `ReplaceAllInterleave`: the first piece and the pattern
      after it are handled, and the rest is rewritten as before. */
  lemma ReplaceAllInterleaveStep(parts: seq<string>, pat: string, rep: string)
    requires pat != [] && |parts| >= 2
    requires !Contains(parts[0] + pat[..|pat| - 1], pat)
    requires ReplaceAll(Interleave(parts[1..], pat), pat, rep) == Interleave(parts[1..], rep)
    ensures ReplaceAll(Interleave(parts, pat), pat, rep) == Interleave(parts, rep)
  {
    var tail := Interleave(parts[1..], pat);
    assert Interleave(parts, pat) == parts[0] + pat + tail;
    ReplaceAllStep(parts[0], pat, tail, rep);
  }
}
