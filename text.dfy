/** The text normaliser `normalizar_texto`: the canonical form in which cells are compared. */
module Text {
  import opened Cells

  /** Python's whitespace (`str.isspace`, and `\s` in a `re` pattern over `str`). */
  predicate IsSpace(c: char) {
    || c == ' '
    || '\t' <= c <= '\r'
    || '\U{1c}' <= c <= '\U{1f}'
    || c == '\U{85}' || c == '\U{a0}' || c == '\U{1680}'
    || '\U{2000}' <= c <= '\U{200a}'
    || c == '\U{2028}' || c == '\U{2029}' || c == '\U{202f}' || c == '\U{205f}' || c == '\U{3000}'
  }

  /** Upper-case letters of ASCII and of the Latin-1 supplement. */
  predicate IsUpper(c: char) {
    'A' <= c <= 'Z' || ('\U{c0}' <= c <= '\U{de}' && c != '\U{d7}')
  }

  /** `str.lower` on one character. */
  function LowerChar(c: char): (r: char)
    ensures !IsUpper(r)
    ensures IsSpace(r) <==> IsSpace(c)
    ensures !IsUpper(c) ==> r == c
  {
    if IsUpper(c) then (c as int + 32) as char else c
  }

  function Lower(s: string): (r: string)
    ensures |r| == |s|
    ensures forall i :: 0 <= i < |s| ==> r[i] == LowerChar(s[i])
  {
    seq(|s|, i requires 0 <= i < |s| => LowerChar(s[i]))
  }

  /** `s` with its leading whitespace removed. */
  function TrimLeft(s: string): (r: string)
    ensures |r| <= |s|
    ensures s != [] && IsSpace(s[0]) ==> |r| < |s|
  {
    if s != [] && IsSpace(s[0]) then TrimLeft(s[1..]) else s
  }

  /** Trimming on the left drops a whitespace prefix and stops at the first visible character. */
  lemma {:induction false} TrimLeftShape(s: string)
    ensures |TrimLeft(s)| <= |s| && TrimLeft(s) == s[|s| - |TrimLeft(s)|..]
    ensures forall i :: 0 <= i < |s| - |TrimLeft(s)| ==> IsSpace(s[i])
    ensures TrimLeft(s) != [] ==> !IsSpace(TrimLeft(s)[0])
    decreases |s|
  {
    if s != [] && IsSpace(s[0]) {
      TrimLeftShape(s[1..]);
    }
  }

  /** `s` with its trailing whitespace removed. */
  function TrimRight(s: string): string {
    if s != [] && IsSpace(s[|s| - 1]) then TrimRight(s[..|s| - 1]) else s
  }

  /** Trimming on the right drops a whitespace suffix and stops at the last visible character. */
  lemma {:induction false} TrimRightShape(s: string)
    ensures |TrimRight(s)| <= |s| && TrimRight(s) == s[..|TrimRight(s)|]
    ensures forall i :: |TrimRight(s)| <= i < |s| ==> IsSpace(s[i])
    ensures TrimRight(s) != [] ==> !IsSpace(TrimRight(s)[|TrimRight(s)| - 1])
    decreases |s|
  {
    if s != [] && IsSpace(s[|s| - 1]) {
      TrimRightShape(s[..|s| - 1]);
    }
  }

  /** No whitespace at either end. */
  predicate Trimmed(s: string) {
    s == [] || (!IsSpace(s[0]) && !IsSpace(s[|s| - 1]))
  }

  /** `str.strip`: whitespace removed at both ends. */
  function Strip(s: string): string {
    TrimRight(TrimLeft(s))
  }

  /** A stripped text has no whitespace at either end, and a text without any is its own strip. */
  lemma StripTrimmed(s: string)
    ensures Trimmed(Strip(s))
    ensures Trimmed(s) ==> Strip(s) == s
  {
    var t := TrimLeft(s);
    TrimLeftShape(s);
    TrimRightShape(t);
    var r := TrimRight(t);
    if r != [] {
      assert r[0] == t[0];
    }
  }

  predicate NoUpper(s: string) {
    forall i :: 0 <= i < |s| ==> !IsUpper(s[i])
  }

  lemma NoUpperSlice(s: string, i: nat, j: nat)
    requires NoUpper(s) && i <= j <= |s|
    ensures NoUpper(s[i..j])
  {
    assert forall k :: 0 <= k < j - i ==> s[i..j][k] == s[i + k];
  }

  lemma StripNoUpper(s: string)
    requires NoUpper(s)
    ensures NoUpper(Strip(s))
  {
    var t := TrimLeft(s);
    TrimLeftShape(s);
    NoUpperSlice(s, |s| - |t|, |s|);
    assert s[|s| - |t|..|s|] == t;
    TrimRightShape(t);
    NoUpperSlice(t, 0, |TrimRight(t)|);
  }

  /** Every whitespace character is a plain space and no two whitespace characters touch. */
  predicate SingleSpaced(s: string) {
    && (forall i :: 0 <= i < |s| && IsSpace(s[i]) ==> s[i] == ' ')
    && (forall i, j :: 0 <= i < |s| && 0 <= j < |s| && j == i + 1 ==> !(IsSpace(s[i]) && IsSpace(s[j])))
  }

  /** Every maximal run of whitespace becomes one space (the regular expression `\s+`). */
  function Collapse(s: string): (r: string)
    ensures |r| <= |s|
    decreases |s|
  {
    if s == [] then []
    else if IsSpace(s[0]) then [' '] + Collapse(TrimLeft(s))
    else [s[0]] + Collapse(s[1..])
  }

  /** Collapsing keeps a text empty or not, and keeps whether it starts and ends with whitespace. */
  lemma {:induction false} CollapseEnds(s: string)
    ensures Collapse(s) == [] <==> s == []
    ensures Collapse(s) != [] ==> (IsSpace(Collapse(s)[0]) <==> IsSpace(s[0]))
    ensures Collapse(s) != [] ==> (IsSpace(Collapse(s)[|Collapse(s)| - 1]) <==> IsSpace(s[|s| - 1]))
    decreases |s|
  {
    if s == [] {
    } else if IsSpace(s[0]) {
      var t := TrimLeft(s);
      TrimLeftShape(s);
      CollapseEnds(t);
      if t == [] {
        assert IsSpace(s[|s| - 1]);
      } else {
        assert t[|t| - 1] == s[|s| - 1];
      }
    } else {
      CollapseEnds(s[1..]);
      if s[1..] != [] {
        assert s[1..][|s[1..]| - 1] == s[|s| - 1];
      }
    }
  }

  lemma SingleSpacedCons(c: char, r: string)
    requires SingleSpaced(r)
    requires IsSpace(c) ==> c == ' ' && (r == [] || !IsSpace(r[0]))
    ensures SingleSpaced([c] + r)
  {
    var s := [c] + r;
    assert forall i :: 1 <= i < |s| ==> s[i] == r[i - 1];
  }

  /** The result of collapsing is single-spaced. */
  lemma {:induction false} CollapseSingleSpaced(s: string)
    ensures SingleSpaced(Collapse(s))
    decreases |s|
  {
    if s == [] {
    } else if IsSpace(s[0]) {
      var t := TrimLeft(s);
      TrimLeftShape(s);
      CollapseSingleSpaced(t);
      CollapseEnds(t);
      SingleSpacedCons(' ', Collapse(t));
    } else {
      CollapseSingleSpaced(s[1..]);
      SingleSpacedCons(s[0], Collapse(s[1..]));
    }
  }

  lemma {:induction false} CollapseNoUpper(s: string)
    requires NoUpper(s)
    ensures NoUpper(Collapse(s))
    decreases |s|
  {
    if s == [] {
    } else if IsSpace(s[0]) {
      var t := TrimLeft(s);
      TrimLeftShape(s);
      assert forall i :: 0 <= i < |t| ==> t[i] == s[|s| - |t| + i];
      CollapseNoUpper(t);
      assert !IsUpper(' ');
    } else {
      CollapseNoUpper(s[1..]);
    }
  }

  /** The canonical form: single-spaced, trimmed and with no upper-case letter. */
  predicate IsNormal(s: string) {
    SingleSpaced(s) && Trimmed(s) && NoUpper(s)
  }

  /** `normalizar_texto`: a missing value becomes the empty string; anything else is
      stringified, lower-cased, stripped, and has its whitespace runs collapsed. */
  function Normalize(c: Cell): string {
    if c.Missing? then "" else Collapse(Strip(Lower(Stringify(c))))
  }

  /** A missing value normalises to the empty string, and every result is in canonical form. */
  lemma NormalizeShape(c: Cell)
    ensures c.Missing? ==> Normalize(c) == ""
    ensures IsNormal(Normalize(c))
  {
    if !c.Missing? {
      var lowered := Lower(Stringify(c));
      assert NoUpper(lowered);
      var stripped := Strip(lowered);
      StripTrimmed(lowered);
      StripNoUpper(lowered);
      var r := Collapse(stripped);
      CollapseNoUpper(stripped);
      CollapseEnds(stripped);
      CollapseSingleSpaced(stripped);
      assert Trimmed(r);
      assert Normalize(c) == r;
    }
  }

  /** The whitespace-free characters of `s`, in order. */
  function NonSpace(s: string): string {
    if s == [] then [] else (if IsSpace(s[0]) then [] else [s[0]]) + NonSpace(s[1..])
  }

  lemma {:induction false} NonSpaceAppend(a: string, b: string)
    ensures NonSpace(a + b) == NonSpace(a) + NonSpace(b)
  {
    if a == [] {
      assert a + b == b;
    } else {
      var head := if IsSpace(a[0]) then [] else [a[0]];
      var t := a + b;
      assert t != [] && t[0] == a[0] && t[1..] == a[1..] + b;
      NonSpaceAppend(a[1..], b);
      calc {
        NonSpace(t);
        head + NonSpace(a[1..] + b);
        head + (NonSpace(a[1..]) + NonSpace(b));
        (head + NonSpace(a[1..])) + NonSpace(b);
      }
    }
  }

  lemma {:induction false} TrimLeftKeepsText(s: string)
    ensures NonSpace(TrimLeft(s)) == NonSpace(s)
  {
    if s != [] && IsSpace(s[0]) {
      TrimLeftKeepsText(s[1..]);
    }
  }

  lemma {:induction false} TrimRightKeepsText(s: string)
    ensures NonSpace(TrimRight(s)) == NonSpace(s)
  {
    if s != [] && IsSpace(s[|s| - 1]) {
      var init := s[..|s| - 1];
      assert s == init + [s[|s| - 1]];
      NonSpaceAppend(init, [s[|s| - 1]]);
      assert NonSpace([s[|s| - 1]]) == [];
      TrimRightKeepsText(init);
    }
  }

  /** Collapsing whitespace never loses, adds or reorders a visible character. */
  lemma {:induction false} CollapseKeepsText(s: string)
    ensures NonSpace(Collapse(s)) == NonSpace(s)
    decreases |s|
  {
    if s == [] {
    } else if IsSpace(s[0]) {
      var t := TrimLeft(s);
      CollapseKeepsText(t);
      TrimLeftKeepsText(s);
      NonSpaceAppend([' '], Collapse(t));
    } else {
      CollapseKeepsText(s[1..]);
      NonSpaceAppend([s[0]], Collapse(s[1..]));
    }
  }

  /** Normalising a text only lower-cases it and changes its whitespace: its visible
      characters survive in order. */
  lemma NormalizeKeepsText(s: string)
    ensures NonSpace(Normalize(Str(s))) == NonSpace(Lower(s))
  {
    var lowered := Lower(s);
    TrimLeftKeepsText(lowered);
    TrimRightKeepsText(TrimLeft(lowered));
    CollapseKeepsText(Strip(lowered));
  }

  lemma LowerFixed(s: string)
    requires forall i :: 0 <= i < |s| ==> !IsUpper(s[i])
    ensures Lower(s) == s
  {
  }

  /** A single-spaced text is left as it is by collapsing. */
  lemma {:induction false} CollapseFixed(s: string)
    requires SingleSpaced(s)
    ensures Collapse(s) == s
    decreases |s|
  {
    if s != [] {
      assert SingleSpaced(s[1..]);
      CollapseFixed(s[1..]);
      if IsSpace(s[0]) {
        assert TrimLeft(s[1..]) == s[1..];
        assert TrimLeft(s) == s[1..];
      }
    }
  }

  /** `normalizar_texto` is idempotent. */
  lemma NormalizeIdempotent(c: Cell)
    ensures Normalize(Str(Normalize(c))) == Normalize(c)
  {
    var t := Normalize(c);
    NormalizeShape(c);
    LowerFixed(t);
    StripTrimmed(t);
    CollapseFixed(t);
  }

  // ---------------------------------------------------------------- words

  /** The longest prefix of `s` without whitespace. */
  function Word(s: string): (w: string)
    ensures |w| <= |s|
    ensures s != [] && !IsSpace(s[0]) ==> |w| > 0
  {
    if s == [] || IsSpace(s[0]) then [] else [s[0]] + Word(s[1..])
  }

  /** `str.split()` without arguments: the maximal whitespace-free pieces of `s`, in order. */
  function Words(s: string): seq<string>
    decreases |s|
  {
    if s == [] then []
    else if IsSpace(s[0]) then Words(s[1..])
    else [Word(s)] + Words(s[|Word(s)|..])
  }

  /** `" ".join(words)`. */
  function Join(words: seq<string>): string {
    if words == [] then []
    else if |words| == 1 then words[0]
    else words[0] + " " + Join(words[1..])
  }

  /** No character of `s` is whitespace. */
  predicate Solid(s: string) {
    forall i :: 0 <= i < |s| ==> !IsSpace(s[i])
  }

  /** A word is a solid prefix, followed by the end of the text or by whitespace. */
  lemma {:induction false} WordShape(s: string)
    ensures Word(s) == s[..|Word(s)|] && Solid(Word(s))
    ensures |Word(s)| < |s| ==> IsSpace(s[|Word(s)|])
  {
    if s != [] && !IsSpace(s[0]) {
      WordShape(s[1..]);
    }
  }

  /** A solid text followed by the end or by whitespace is the word that starts the text. */
  lemma {:induction false} WordOfPiece(w: string, b: string)
    requires Solid(w)
    requires b == [] || IsSpace(b[0])
    ensures Word(w + b) == w
  {
    if w == [] {
      assert w + b == b;
    } else {
      assert (w + b)[0] == w[0];
      assert (w + b)[1..] == w[1..] + b;
      WordOfPiece(w[1..], b);
    }
  }

  /** Collapsing passes the leading word through unchanged. */
  lemma {:induction false} CollapseWord(s: string)
    ensures Collapse(s) == Word(s) + Collapse(s[|Word(s)|..])
  {
    if s != [] && !IsSpace(s[0]) {
      CollapseWord(s[1..]);
      assert s[1..][|Word(s[1..])|..] == s[|Word(s)|..];
    }
  }

  /** Leading whitespace separates no word. */
  lemma {:induction false} WordsTrimLeft(s: string)
    ensures Words(TrimLeft(s)) == Words(s)
  {
    if s != [] && IsSpace(s[0]) {
      WordsTrimLeft(s[1..]);
    }
  }

  lemma {:induction false} WordSnocSpace(a: string, c: char)
    requires IsSpace(c)
    ensures Word(a + [c]) == Word(a)
  {
    if a == [] {
      assert a + [c] == [c];
    } else {
      assert (a + [c])[0] == a[0];
      assert (a + [c])[1..] == a[1..] + [c];
      WordSnocSpace(a[1..], c);
    }
  }

  /** Trailing whitespace separates no word. */
  lemma {:induction false} WordsSnocSpace(a: string, c: char)
    requires IsSpace(c)
    ensures Words(a + [c]) == Words(a)
    decreases |a|
  {
    if a == [] {
      assert a + [c] == [c];
      assert [c][1..] == [];
    } else {
      assert (a + [c])[0] == a[0];
      if IsSpace(a[0]) {
        assert (a + [c])[1..] == a[1..] + [c];
        WordsSnocSpace(a[1..], c);
      } else {
        WordSnocSpace(a, c);
        var n := |Word(a)|;
        assert (a + [c])[n..] == a[n..] + [c];
        WordsSnocSpace(a[n..], c);
      }
    }
  }

  lemma {:induction false} WordsTrimRight(s: string)
    ensures Words(TrimRight(s)) == Words(s)
  {
    if s != [] && IsSpace(s[|s| - 1]) {
      var init := s[..|s| - 1];
      assert s == init + [s[|s| - 1]];
      WordsSnocSpace(init, s[|s| - 1]);
      WordsTrimRight(init);
    }
  }

  /** Stripping a text keeps its words. */
  lemma WordsStrip(s: string)
    ensures Words(Strip(s)) == Words(s)
  {
    WordsTrimLeft(s);
    WordsTrimRight(TrimLeft(s));
  }

  /** Whitespace before a visible character: collapsing makes it one space, and the trimmed
      rest has the same words and no whitespace at its ends. */
  lemma SpacedRest(rest: string)
    requires rest != [] && IsSpace(rest[0]) && !IsSpace(rest[|rest| - 1])
    ensures TrimLeft(rest) != [] && Trimmed(TrimLeft(rest))
    ensures Collapse(rest) == " " + Collapse(TrimLeft(rest))
    ensures Words(rest) == Words(TrimLeft(rest))
  {
    var u := TrimLeft(rest);
    TrimLeftShape(rest);
    WordsTrimLeft(rest);
    // The last character is visible, so it lies in the kept suffix.
    assert !IsSpace(rest[|rest| - 1]) && |rest| - 1 >= |rest| - |u|;
    assert u[|u| - 1] == rest[|rest| - 1];
  }

  lemma JoinCons(w: string, ws: seq<string>)
    requires ws != []
    ensures Join([w] + ws) == w + " " + Join(ws)
  {
    var all := [w] + ws;
    assert all[0] == w && all[1..] == ws;
  }

  /** A text that starts with a visible character splits into its first word and a rest that
      is empty or starts with whitespace; collapsing and splitting both pass that word on. */
  lemma LeadingWord(s: string)
    requires s != [] && !IsSpace(s[0])
    ensures var rest := s[|Word(s)|..];
      && Collapse(s) == Word(s) + Collapse(rest)
      && Words(s) == [Word(s)] + Words(rest)
      && |rest| < |s|
      && (rest != [] ==> IsSpace(rest[0]) && rest[|rest| - 1] == s[|s| - 1])
  {
    WordShape(s);
    CollapseWord(s);
    var n := |Word(s)|;
    var rest := s[n..];
    assert 0 < n <= |s|;
    assert Words(s) == [Word(s)] + Words(rest);
    if rest != [] {
      assert rest[0] == s[n];
      assert rest[|rest| - 1] == s[|s| - 1];
    }
  }

  /** On a text without whitespace at its ends, collapsing joins its words with one space:
      an inner whitespace run becomes exactly one space. */
  lemma {:induction false} CollapseTrimmed(s: string)
    requires Trimmed(s)
    ensures Collapse(s) == Join(Words(s))
    decreases |s|
  {
    if s != [] {
      LeadingWord(s);
      var w := Word(s);
      var rest := s[|w|..];
      if rest != [] {
        SpacedRest(rest);
        var u := TrimLeft(rest);
        CollapseTrimmed(u);
        assert Words(u) != [];
        JoinCons(w, Words(u));
      }
    }
  }

  /** `normalizar_texto` is `" ".join(str(value).lower().split())` for every value that is not
      missing. */
  lemma NormalizeWords(c: Cell)
    requires !c.Missing?
    ensures Normalize(c) == Join(Words(Lower(Stringify(c))))
  {
    var lowered := Lower(Stringify(c));
    StripTrimmed(lowered);
    CollapseTrimmed(Strip(lowered));
    WordsStrip(lowered);
  }

  /** Every word is a non-empty solid text. */
  lemma {:induction false} WordsSolid(s: string)
    ensures forall i :: 0 <= i < |Words(s)| ==> Words(s)[i] != [] && Solid(Words(s)[i])
    decreases |s|
  {
    if s != [] {
      if IsSpace(s[0]) {
        WordsSolid(s[1..]);
      } else {
        WordShape(s);
        WordsSolid(s[|Word(s)|..]);
      }
    }
  }

  /** Splitting a joined list of non-empty solid words gives the list back. */
  lemma {:induction false} WordsJoin(ws: seq<string>)
    requires forall i :: 0 <= i < |ws| ==> ws[i] != [] && Solid(ws[i])
    ensures Words(Join(ws)) == ws
  {
    if ws != [] {
      var w := ws[0];
      if |ws| == 1 {
        WordOfPiece(w, []);
        assert w + [] == w;
        assert w[|w|..] == [];
      } else {
        var tail := Join(ws[1..]);
        var s := w + " " + tail;
        WordOfPiece(w, " " + tail);
        assert s == w + (" " + tail);
        assert s[|w|..] == " " + tail;
        assert (" " + tail)[1..] == tail;
        WordsJoin(ws[1..]);
        assert ws == [w] + ws[1..];
      }
    }
  }

  /** Two texts normalise alike exactly when their lower-cased forms have the same words: the
      catalogue lookup tolerates differences of case, of surrounding whitespace and of the
      length of whitespace runs, and no other difference. */
  lemma NormalizeSameWords(s: string, t: string)
    ensures Normalize(Str(s)) == Normalize(Str(t)) <==> Words(Lower(s)) == Words(Lower(t))
  {
    NormalizeWords(Str(s));
    NormalizeWords(Str(t));
    WordsSolid(Lower(s));
    WordsSolid(Lower(t));
    WordsJoin(Words(Lower(s)));
    WordsJoin(Words(Lower(t)));
  }
}
