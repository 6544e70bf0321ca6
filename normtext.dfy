// `_norm_txt` of utils.py: compatibility decomposition with the non-ASCII
// remainder dropped, lower case, outer whitespace stripped and inner
// whitespace runs collapsed to one space. The single-string form and the
// column (Series) form apply the steps in different orders; both are modelled.
module NormText {
  import opened Wrappers
  import opened Text
  import opened Seqs

  predicate AllAscii(s: string) { forall i :: 0 <= i < |s| ==> IsAscii(s[i]) }

  /**
   * NFKD of one character followed by `encode("ascii", "ignore")`, tabulated
   * for Latin-1; characters above U+00FF are dropped.
   */
  function FoldChar(c: char): (r: string)
    ensures AllAscii(r)
    ensures IsAscii(c) ==> r == [c]
  {
    if IsAscii(c) then [c]
    else if c == '\U{A0}' || c == '\U{A8}' || c == '\U{AF}' || c == '\U{B4}' || c == '\U{B8}' then " "
    else if c == '\U{AA}' then "a"
    else if c == '\U{BA}' then "o"
    else if c == '\U{B2}' then "2"
    else if c == '\U{B3}' then "3"
    else if c == '\U{B9}' then "1"
    else if c == '\U{BC}' then "14"
    else if c == '\U{BD}' then "12"
    else if c == '\U{BE}' then "34"
    else if '\U{C0}' <= c <= '\U{C5}' then "A"
    else if c == '\U{C7}' then "C"
    else if '\U{C8}' <= c <= '\U{CB}' then "E"
    else if '\U{CC}' <= c <= '\U{CF}' then "I"
    else if c == '\U{D1}' then "N"
    else if '\U{D2}' <= c <= '\U{D6}' then "O"
    else if '\U{D9}' <= c <= '\U{DC}' then "U"
    else if c == '\U{DD}' then "Y"
    else if '\U{E0}' <= c <= '\U{E5}' then "a"
    else if c == '\U{E7}' then "c"
    else if '\U{E8}' <= c <= '\U{EB}' then "e"
    else if '\U{EC}' <= c <= '\U{EF}' then "i"
    else if c == '\U{F1}' then "n"
    else if '\U{F2}' <= c <= '\U{F6}' then "o"
    else if '\U{F9}' <= c <= '\U{FC}' then "u"
    else if c == '\U{FD}' || c == '\U{FF}' then "y"
    else []
  }

  /** `unicodedata.normalize("NFKD", s).encode("ascii", "ignore").decode("ascii")`. */
  function Fold(s: string): (r: string)
    ensures AllAscii(r)
  {
    if s == [] then [] else FoldChar(s[0]) + Fold(s[1..])
  }

  lemma {:induction false} FoldAppend(x: string, y: string)
    ensures Fold(x + y) == Fold(x) + Fold(y)
    decreases |x|
  {
    if x != [] {
      assert (x + y)[0] == x[0] && (x + y)[1..] == x[1..] + y;
      FoldAppend(x[1..], y);
      calc {
        Fold(x + y);
        FoldChar(x[0]) + Fold(x[1..] + y);
        FoldChar(x[0]) + (Fold(x[1..]) + Fold(y));
        (FoldChar(x[0]) + Fold(x[1..])) + Fold(y);
      }
    } else {
      assert x + y == y;
    }
  }

  lemma {:induction false} FoldOfAscii(s: string)
    requires AllAscii(s)
    ensures Fold(s) == s
  {
    if s != [] {
      FoldOfAscii(s[1..]);
    }
  }

  // -------------------------------------------------- whitespace collapsing

  /** Every whitespace character is a plain space, and no two spaces are adjacent. */
  predicate SingleSpaced(s: string) {
    PlainSpaces(s) && NoAdjacentSpaces(s)
  }

  lemma TrimLeftShorter(s: string)
    requires s != [] && IsSpace(s[0])
    ensures |TrimLeft(s)| < |s|
  {
  }

  /** `re.sub(r"\s+", " ", s)`: each maximal run of whitespace becomes one space. */
  function Collapse(s: string): (r: string)
    ensures |r| <= |s| && (s == [] ==> r == [])
    ensures s != [] ==> |r| >= 1 && (r[0] == ' ' <==> IsSpace(s[0]))
    decreases |s|
  {
    if s == [] then []
    else if IsSpace(s[0]) then
      TrimLeftShorter(s);
      [' '] + Collapse(TrimLeft(s))
    else [s[0]] + Collapse(s[1..])
  }

  /** Whether the text ends in a plain space. */
  predicate EndsInSpace(r: string) { r != [] && r[|r| - 1] == ' ' }

  /** Whether the text ends in whitespace. */
  predicate EndsInWhitespace(s: string) { s != [] && IsSpace(s[|s| - 1]) }

  /** The collapsed text ends in a space exactly when the original ends in whitespace. */
  lemma {:induction false} CollapseLast(s: string)
    ensures EndsInSpace(Collapse(s)) <==> EndsInWhitespace(s)
    decreases |s|
  {
    if s != [] {
      var t := if IsSpace(s[0]) then TrimLeft(s) else s[1..];
      if IsSpace(s[0]) {
        TrimLeftShorter(s);
        CollapseSpaceStep(s);
      } else {
        CollapseCharStep(s);
      }
      assert Collapse(s) == [if IsSpace(s[0]) then ' ' else s[0]] + Collapse(t);
      if t == [] {
        CollapseLastAlone(s, t);
      } else {
        CollapseLast(t);
        EndsStep(s, t, Collapse(s), Collapse(t), if IsSpace(s[0]) then ' ' else s[0]);
      }
    }
  }

  lemma CollapseLastAlone(s: string, t: string)
    requires s != [] && t == [] && t == (if IsSpace(s[0]) then TrimLeft(s) else s[1..])
    requires Collapse(s) == [if IsSpace(s[0]) then ' ' else s[0]] + Collapse(t)
    ensures EndsInSpace(Collapse(s)) <==> EndsInWhitespace(s)
  {
    if IsSpace(s[0]) {
      assert IsSpace(s[|s| - 1 - 0]);
    } else {
      assert s == [s[0]];
    }
  }

  /** The step of `CollapseLast`, stated on the texts alone. */
  lemma EndsStep(s: string, t: string, r: string, u: string, c: char)
    requires t != [] && |t| <= |s| && t == s[|s| - |t|..]
    requires r == [c] + u && u != []
    requires EndsInSpace(u) <==> EndsInWhitespace(t)
    ensures EndsInSpace(r) <==> EndsInWhitespace(s)
  {
    assert t[|t| - 1] == s[|s| - 1];
    assert r[|r| - 1] == u[|u| - 1];
  }

  /** A character class holding `c` and every character of `t` holds every character of `[c] + t`. */
  lemma ConsInClass(c: char, t: string, p: char -> bool)
    requires p(c) && forall i :: 0 <= i < |t| ==> p(t[i])
    ensures forall i :: 0 <= i < |[c] + t| ==> p(([c] + t)[i])
  {
    forall i | 0 <= i < |[c] + t| ensures p(([c] + t)[i]) {
      if i > 0 { assert ([c] + t)[i] == t[i - 1]; }
    }
  }

  /** ... and every character of a suffix of a string whose characters it holds. */
  lemma SuffixInClass(s: string, k: nat, p: char -> bool)
    requires k <= |s| && forall i :: 0 <= i < |s| ==> p(s[i])
    ensures forall i :: 0 <= i < |s[k..]| ==> p(s[k..][i])
  {
    forall i | 0 <= i < |s[k..]| ensures p(s[k..][i]) {
      assert s[k..][i] == s[i + k];
    }
  }

  /** A character class that contains the space and every character of `s` contains every character of the result. */
  lemma {:induction false} CollapseChars(s: string, p: char -> bool)
    requires p(' ') && forall i :: 0 <= i < |s| ==> p(s[i])
    ensures forall i :: 0 <= i < |Collapse(s)| ==> p(Collapse(s)[i])
    decreases |s|
  {
    if s != [] {
      if IsSpace(s[0]) {
        var t := TrimLeft(s);
        TrimLeftShorter(s);
        SuffixInClass(s, |s| - |t|, p);
        CollapseChars(t, p);
        CollapseSpaceStep(s);
        ConsInClass(' ', Collapse(t), p);
      } else {
        SuffixInClass(s, 1, p);
        CollapseChars(s[1..], p);
        CollapseCharStep(s);
        ConsInClass(s[0], Collapse(s[1..]), p);
      }
    }
  }

  lemma CollapseAscii(s: string)
    requires AllAscii(s)
    ensures AllAscii(Collapse(s))
  {
    CollapseChars(s, IsAscii);
  }

  predicate NoAdjacentSpaces(s: string) {
    forall i :: 0 <= i < |s| - 1 ==> !(s[i] == ' ' && s[i + 1] == ' ')
  }

  /** Putting a character in front keeps spaces apart unless both are spaces. */
  lemma ConsNoAdjacentSpaces(c: char, t: string)
    requires NoAdjacentSpaces(t)
    requires c != ' ' || t == [] || t[0] != ' '
    ensures NoAdjacentSpaces([c] + t)
  {
    var r := [c] + t;
    forall i | 0 <= i < |r| - 1 ensures !(r[i] == ' ' && r[i + 1] == ' ') {
      if i > 0 { assert r[i] == t[i - 1] && r[i + 1] == t[i]; }
    }
  }

  lemma {:induction false} CollapseNoAdjacentSpaces(s: string)
    ensures NoAdjacentSpaces(Collapse(s))
    decreases |s|
  {
    if s != [] {
      if IsSpace(s[0]) {
        var t := TrimLeft(s);
        TrimLeftShorter(s);
        CollapseNoAdjacentSpaces(t);
        ConsNoAdjacentSpaces(' ', Collapse(t));
      } else {
        CollapseNoAdjacentSpaces(s[1..]);
        ConsNoAdjacentSpaces(s[0], Collapse(s[1..]));
      }
    }
  }

  predicate PlainSpaces(s: string) { forall i :: 0 <= i < |s| ==> !IsSpace(s[i]) || s[i] == ' ' }

  lemma ConsPlainSpaces(c: char, t: string)
    requires PlainSpaces(t) && (!IsSpace(c) || c == ' ')
    ensures PlainSpaces([c] + t)
  {
    var r := [c] + t;
    forall i | 0 <= i < |r| ensures !IsSpace(r[i]) || r[i] == ' ' {
      if i > 0 { assert r[i] == t[i - 1]; }
    }
  }

  lemma {:induction false} CollapsePlainSpaces(s: string)
    ensures PlainSpaces(Collapse(s))
    decreases |s|
  {
    if s != [] {
      if IsSpace(s[0]) {
        var t := TrimLeft(s);
        TrimLeftShorter(s);
        CollapsePlainSpaces(t);
        ConsPlainSpaces(' ', Collapse(t));
      } else {
        CollapsePlainSpaces(s[1..]);
        ConsPlainSpaces(s[0], Collapse(s[1..]));
      }
    }
  }

  lemma CollapseSingleSpaced(s: string)
    ensures SingleSpaced(Collapse(s))
  {
    CollapsePlainSpaces(s);
    CollapseNoAdjacentSpaces(s);
  }

  lemma TailSingleSpaced(s: string)
    requires s != [] && SingleSpaced(s)
    ensures SingleSpaced(s[1..])
  {
    var t := s[1..];
    forall i | 0 <= i < |t| ensures !IsSpace(t[i]) || t[i] == ' ' {
      assert t[i] == s[i + 1];
    }
    forall i | 0 <= i < |t| - 1 ensures !(t[i] == ' ' && t[i + 1] == ' ') {
      assert t[i] == s[i + 1] && t[i + 1] == s[i + 2];
    }
  }

  /** A string that is already single-spaced is left unchanged. */
  lemma {:induction false} CollapseOfSingleSpaced(s: string)
    requires SingleSpaced(s)
    ensures Collapse(s) == s
    decreases |s|
  {
    if s != [] {
      var t := s[1..];
      TailSingleSpaced(s);
      CollapseOfSingleSpaced(t);
      if IsSpace(s[0]) {
        SingleSpaceHead(s);
        CollapseSpaceStep(s);
      } else {
        CollapseCharStep(s);
      }
      assert s == [s[0]] + t;
    }
  }

  /** In a single-spaced string a leading whitespace is one plain space, and trimming drops just it. */
  lemma SingleSpaceHead(s: string)
    requires s != [] && IsSpace(s[0]) && SingleSpaced(s)
    ensures s[0] == ' ' && TrimLeft(s) == s[1..]
  {
    var t := s[1..];
    if t != [] {
      assert t[0] == s[1];
      assert s[1] != ' ';
    }
    assert TrimLeft(t) == t;
  }

  predicate NoUpper(s: string) { forall i :: 0 <= i < |s| ==> !IsUpperAscii(s[i]) }

  /** What `_norm_txt` produces: ASCII, lower case, stripped, single-spaced. */
  predicate Normalised(s: string) {
    AllAscii(s) && NoUpper(s) && Stripped(s) && SingleSpaced(s)
  }

  lemma AsciiLowerFacts(c: char)
    requires IsAscii(c)
    ensures IsAscii(LowerChar(c)) && !IsUpperAscii(LowerChar(c))
    ensures IsSpace(LowerChar(c)) <==> IsSpace(c)
    ensures LowerChar(c) == ' ' <==> c == ' '
    ensures !IsUpperAscii(c) ==> LowerChar(c) == c
  {
  }

  lemma LowerKeepsShape(s: string)
    requires AllAscii(s)
    ensures AllAscii(Lower(s)) && NoUpper(Lower(s))
    ensures Stripped(s) ==> Stripped(Lower(s))
    ensures SingleSpaced(s) ==> SingleSpaced(Lower(s))
  {
    forall i | 0 <= i < |s| ensures IsAscii(Lower(s)[i]) && !IsUpperAscii(Lower(s)[i]) {
      AsciiLowerFacts(s[i]);
    }
    if s != [] {
      AsciiLowerFacts(s[0]);
      AsciiLowerFacts(s[|s| - 1]);
    }
    if SingleSpaced(s) {
      forall i | 0 <= i < |s| ensures IsSpace(Lower(s)[i]) ==> Lower(s)[i] == ' ' {
        AsciiLowerFacts(s[i]);
      }
      forall i | 0 <= i < |s| - 1 ensures !(Lower(s)[i] == ' ' && Lower(s)[i + 1] == ' ') {
        AsciiLowerFacts(s[i]);
        AsciiLowerFacts(s[i + 1]);
      }
    }
  }

  lemma LowerOfNoUpper(s: string)
    requires AllAscii(s) && NoUpper(s)
    ensures Lower(s) == s
  {
    assert forall i :: 0 <= i < |s| ==> Lower(s)[i] == s[i];
  }

  lemma CollapseNoUpper(s: string)
    requires NoUpper(s)
    ensures NoUpper(Collapse(s))
  {
    CollapseChars(s, c => !IsUpperAscii(c));
  }

  /** `Strip(s)` is the slice of `s` starting after its leading whitespace. */
  lemma StripIsSlice(s: string) returns (a: nat)
    ensures a + |Strip(s)| <= |s| && Strip(s) == s[a..a + |Strip(s)|]
  {
    var l := TrimLeft(s);
    a := |s| - |l|;
    assert l == s[a..];
    assert Strip(s) == l[..|Strip(s)|];
  }

  lemma SliceKeepsAscii(s: string, a: nat, t: string)
    requires a + |t| <= |s| && t == s[a..a + |t|] && AllAscii(s)
    ensures AllAscii(t)
  {
    assert forall i :: 0 <= i < |t| ==> t[i] == s[a + i];
  }

  lemma SliceKeepsNoUpper(s: string, a: nat, t: string)
    requires a + |t| <= |s| && t == s[a..a + |t|] && NoUpper(s)
    ensures NoUpper(t)
  {
    assert forall i :: 0 <= i < |t| ==> t[i] == s[a + i];
  }

  lemma SliceKeepsSingleSpaced(s: string, a: nat, t: string)
    requires a + |t| <= |s| && t == s[a..a + |t|] && SingleSpaced(s)
    ensures SingleSpaced(t)
  {
    assert forall i :: 0 <= i < |t| ==> t[i] == s[a + i];
    forall i | 0 <= i < |t| - 1 ensures !(t[i] == ' ' && t[i + 1] == ' ') {
      assert t[i] == s[a + i] && t[i + 1] == s[a + i + 1];
    }
  }

  lemma StripKeepsAscii(s: string)
    requires AllAscii(s)
    ensures AllAscii(Strip(s))
  {
    var a := StripIsSlice(s);
    SliceKeepsAscii(s, a, Strip(s));
  }

  lemma StripKeepsNoUpper(s: string)
    requires NoUpper(s)
    ensures NoUpper(Strip(s))
  {
    var a := StripIsSlice(s);
    SliceKeepsNoUpper(s, a, Strip(s));
  }

  lemma StripKeepsSingleSpaced(s: string)
    requires SingleSpaced(s)
    ensures SingleSpaced(Strip(s))
  {
    var a := StripIsSlice(s);
    SliceKeepsSingleSpaced(s, a, Strip(s));
  }

  /** Collapsing keeps a stripped text stripped. */
  lemma CollapseStripped(t: string)
    requires Stripped(t)
    ensures Stripped(Collapse(t))
  {
    CollapsePlainSpaces(t);
    CollapseLast(t);
  }

  /** Collapsing, stripping and lowering folded text gives a normalised text. */
  lemma ScalarStepsNormalise(folded: string)
    requires AllAscii(folded)
    ensures Normalised(Lower(Strip(Collapse(folded))))
  {
    var c := Collapse(folded);
    var t := Strip(c);
    CollapseSingleSpaced(folded);
    CollapseAscii(folded);
    StripKeepsAscii(c);
    StripKeepsSingleSpaced(c);
    LowerKeepsShape(t);
  }

  /** Lowering, stripping and collapsing folded text gives a normalised text. */
  lemma SeriesStepsNormalise(folded: string)
    requires AllAscii(folded)
    ensures Normalised(Collapse(Strip(Lower(folded))))
  {
    var low := Lower(folded);
    var t := Strip(low);
    LowerKeepsShape(folded);
    StripKeepsAscii(low);
    StripKeepsNoUpper(low);
    CollapseStripped(t);
    CollapseSingleSpaced(t);
    CollapseAscii(t);
    CollapseNoUpper(t);
  }

  /** `_norm_txt` on one value: fold, collapse runs, strip, lower (utils.py:36-38). */
  function NormStr(s: Option<string>): (r: string)
    ensures Normalised(r)
    ensures s.None? ==> r == []
  {
    var folded := Fold(s.GetOr([]));
    ScalarStepsNormalise(folded);
    Lower(Strip(Collapse(folded)))
  }

  /** `_norm_txt` on a column: fill missing, fold, lower, strip, collapse runs (utils.py:32-34). */
  function NormSeries(s: Option<string>): (r: string)
    ensures Normalised(r)
    ensures s.None? ==> r == []
  {
    var folded := Fold(s.GetOr([]));
    SeriesStepsNormalise(folded);
    Collapse(Strip(Lower(folded)))
  }

  /** Column normalisation of a text whose folded, lowered form is already normalised. */
  lemma NormSeriesOfLowered(m: string, t: string)
    requires Lower(Fold(m)) == t && Normalised(t)
    ensures NormSeries(Some(m)) == t
  {
    StripOfStripped(t);
    CollapseOfSingleSpaced(t);
  }

  /** A normalised text is its own normal form. */
  lemma NormOfNormalised(t: string)
    requires Normalised(t)
    ensures NormStr(Some(t)) == t
  {
    FoldOfAscii(t);
    CollapseOfSingleSpaced(t);
    StripOfStripped(t);
    LowerOfNoUpper(t);
  }

  /** `_norm_txt` is idempotent. */
  lemma NormIdempotent(s: Option<string>)
    ensures NormStr(Some(NormStr(s))) == NormStr(s)
  {
    NormOfNormalised(NormStr(s));
  }

  // -------------------------------------------- the two forms agree

  lemma LowerAppend(x: string, y: string)
    ensures Lower(x + y) == Lower(x) + Lower(y)
  {
    var l, r := Lower(x + y), Lower(x) + Lower(y);
    forall i | 0 <= i < |l| ensures l[i] == r[i] {
      if i < |x| { assert (x + y)[i] == x[i]; } else { assert (x + y)[i] == y[i - |x|]; }
    }
  }

  lemma TailOfLower(s: string)
    requires s != []
    ensures Lower(s)[1..] == Lower(s[1..]) && Lower(s)[..|s| - 1] == Lower(s[..|s| - 1])
  {
  }

  lemma TrimLeftOfNonSpace(s: string)
    requires s == [] || !IsSpace(s[0])
    ensures TrimLeft(s) == s
  {
  }

  lemma TrimLeftStep(s: string)
    requires s != [] && IsSpace(s[0])
    ensures TrimLeft(s) == TrimLeft(s[1..])
  {
  }

  lemma {:induction false} TrimLeftLower(s: string)
    requires AllAscii(s)
    ensures TrimLeft(Lower(s)) == Lower(TrimLeft(s))
    decreases |s|
  {
    if s != [] {
      var low := Lower(s);
      AsciiLowerFacts(s[0]);
      assert low[0] == LowerChar(s[0]);
      TailOfLower(s);
      if IsSpace(s[0]) {
        TrimLeftStep(s);
        TrimLeftStep(low);
        TrimLeftLower(s[1..]);
      } else {
        TrimLeftOfNonSpace(s);
        TrimLeftOfNonSpace(low);
      }
    }
  }

  lemma {:induction false} TrimRightLower(s: string)
    requires AllAscii(s)
    ensures TrimRight(Lower(s)) == Lower(TrimRight(s))
    decreases |s|
  {
    if s != [] {
      AsciiLowerFacts(s[|s| - 1]);
      TailOfLower(s);
      if IsSpace(s[|s| - 1]) {
        TrimRightLower(s[..|s| - 1]);
      }
    }
  }

  /** Lower case and stripping commute on ASCII text. */
  lemma StripLower(s: string)
    requires AllAscii(s)
    ensures Strip(Lower(s)) == Lower(Strip(s))
  {
    TrimLeftLower(s);
    TrimLeftKeepsAscii(s);
    TrimRightLower(TrimLeft(s));
  }

  lemma TrimLeftKeepsAscii(s: string)
    requires AllAscii(s)
    ensures AllAscii(TrimLeft(s))
  {
    var l := TrimLeft(s);
    SliceKeepsAscii(s, |s| - |l|, l);
  }

  lemma CollapseSpaceStep(s: string)
    requires s != [] && IsSpace(s[0])
    ensures Collapse(s) == [' '] + Collapse(TrimLeft(s))
  {
  }

  lemma CollapseCharStep(s: string)
    requires s != [] && !IsSpace(s[0])
    ensures Collapse(s) == [s[0]] + Collapse(s[1..])
  {
  }

  /** The step of `CollapseLower` at a leading whitespace character. */
  lemma CollapseLowerSpace(s: string)
    requires AllAscii(s) && s != [] && IsSpace(s[0])
    requires Collapse(Lower(TrimLeft(s))) == Lower(Collapse(TrimLeft(s)))
    ensures Collapse(Lower(s)) == Lower(Collapse(s))
  {
    var low := Lower(s);
    var t := TrimLeft(s);
    AsciiLowerFacts(s[0]);
    assert low[0] == LowerChar(s[0]);
    CollapseSpaceStep(s);
    CollapseSpaceStep(low);
    TrimLeftLower(s);
    LowerAppend([' '], Collapse(t));
    LowerSpace();
    calc {
      Collapse(low);
      [' '] + Collapse(Lower(t));
      [' '] + Lower(Collapse(t));
      Lower([' ']) + Lower(Collapse(t));
      Lower(Collapse(s));
    }
  }

  lemma LowerSpace()
    ensures Lower([' ']) == [' ']
  {
  }

  /** The step of `CollapseLower` at a leading non-whitespace character. */
  lemma CollapseLowerChar(s: string)
    requires AllAscii(s) && s != [] && !IsSpace(s[0])
    requires Collapse(Lower(s[1..])) == Lower(Collapse(s[1..]))
    ensures Collapse(Lower(s)) == Lower(Collapse(s))
  {
    var low := Lower(s);
    AsciiLowerFacts(s[0]);
    assert low[0] == LowerChar(s[0]);
    TailOfLower(s);
    CollapseCharStep(s);
    CollapseCharStep(low);
    LowerAppend([s[0]], Collapse(s[1..]));
    assert Lower([s[0]]) == [low[0]];
  }

  /** Lower case and collapsing commute on ASCII text. */
  lemma {:induction false} CollapseLower(s: string)
    requires AllAscii(s)
    ensures Collapse(Lower(s)) == Lower(Collapse(s))
    decreases |s|
  {
    if s != [] {
      if IsSpace(s[0]) {
        var t := TrimLeft(s);
        TrimLeftShorter(s);
        assert t == s[|s| - |t|..];
        assert AllAscii(t);
        CollapseLower(t);
        CollapseLowerSpace(s);
      } else {
        assert AllAscii(s[1..]);
        CollapseLower(s[1..]);
        CollapseLowerChar(s);
      }
    }
  }

  /** Collapsing and dropping leading whitespace commute. */
  lemma CollapseTrimLeft(s: string)
    ensures Collapse(TrimLeft(s)) == TrimLeft(Collapse(s))
  {
    var t := TrimLeft(s);
    TrimLeftOfNonSpace(Collapse(t));
    if s != [] && IsSpace(s[0]) {
      var c := Collapse(s);
      CollapseSpaceStep(s);
      TrimLeftStep(c);
      assert c[1..] == Collapse(t);
    } else {
      TrimLeftOfNonSpace(s);
    }
  }

  /** Trailing whitespace of `y` goes, `x` stays, when something of `y` or the end of `x` is not blank. */
  lemma {:induction false} TrimRightAppend(x: string, y: string)
    requires TrimRight(y) != [] || x == [] || !IsSpace(x[|x| - 1])
    ensures TrimRight(x + y) == x + TrimRight(y)
    decreases |y|
  {
    if y == [] {
      assert x + y == x;
    } else if IsSpace(y[|y| - 1]) {
      assert (x + y)[..|x + y| - 1] == x + y[..|y| - 1];
      TrimRightAppend(x, y[..|y| - 1]);
    }
  }

  /** Collapsing and dropping trailing whitespace commute. */
  lemma {:induction false} CollapseTrimRight(s: string)
    ensures Collapse(TrimRight(s)) == TrimRight(Collapse(s))
    decreases |s|
  {
    if s != [] {
      if IsSpace(s[0]) {
        TrimLeftShorter(s);
        CollapseTrimRight(TrimLeft(s));
        CollapseTrimRightSpace(s);
      } else {
        CollapseTrimRight(s[1..]);
        CollapseTrimRightChar(s);
      }
    }
  }

  lemma CollapseTrimRightChar(s: string)
    requires s != [] && !IsSpace(s[0])
    requires Collapse(TrimRight(s[1..])) == TrimRight(Collapse(s[1..]))
    ensures Collapse(TrimRight(s)) == TrimRight(Collapse(s))
  {
    var c, t := s[0], s[1..];
    assert s == [c] + t;
    TrimRightAppend([c], t);
    CollapseCons(c, TrimRight(t));
    CollapseCons(c, t);
    TrimRightAppend([c], Collapse(t));
  }

  lemma CollapseCons(c: char, t: string)
    requires !IsSpace(c)
    ensures Collapse([c] + t) == [c] + Collapse(t)
  {
    var u := [c] + t;
    assert u[0] == c && u[1..] == t;
    CollapseCharStep(u);
  }

  lemma CollapseTrimRightSpace(s: string)
    requires s != [] && IsSpace(s[0])
    requires Collapse(TrimRight(TrimLeft(s))) == TrimRight(Collapse(TrimLeft(s)))
    ensures Collapse(TrimRight(s)) == TrimRight(Collapse(s))
  {
    if TrimLeft(s) == [] {
      CollapseTrimRightBlank(s);
    } else {
      CollapseTrimRightPadded(s);
    }
  }

  lemma CollapseTrimRightBlank(s: string)
    requires s != [] && TrimLeft(s) == []
    ensures Collapse(TrimRight(s)) == TrimRight(Collapse(s)) == []
  {
    AllBlankTrimRight(s);
    CollapseSpaceStep(s);
    assert Collapse(s) == [' '];
    TrimRightStep([' ']);
    assert [' '][..0] == [];
  }

  lemma CollapseTrimRightPadded(s: string)
    requires s != [] && IsSpace(s[0]) && TrimLeft(s) != []
    requires Collapse(TrimRight(TrimLeft(s))) == TrimRight(Collapse(TrimLeft(s)))
    ensures Collapse(TrimRight(s)) == TrimRight(Collapse(s))
  {
    var t := TrimLeft(s);
    var u := TrimRight(s);
    PaddedTrimRight(s);
    CollapseSpaceStep(s);
    CollapseSpaceStep(u);
    CollapseNonBlankStart(t);
    TrimRightAppend([' '], Collapse(t));
  }

  /** Stripping the right end of a text with leading blanks and some non-blank keeps the leading blanks. */
  lemma PaddedTrimRight(s: string)
    requires s != [] && IsSpace(s[0]) && TrimLeft(s) != []
    ensures TrimRight(s) != [] && IsSpace(TrimRight(s)[0])
    ensures TrimLeft(TrimRight(s)) == TrimRight(TrimLeft(s))
  {
    var t := TrimLeft(s);
    var pre := s[..|s| - |t|];
    SplitAt(s, |s| - |t|);
    forall k | 0 <= k < |pre| ensures IsSpace(pre[k]) {
      assert pre[k] == s[k];
    }
    TrimRightOfNonBlankStart(t);
    TrimRightAppend(pre, t);
    var tr := TrimRight(t);
    TrimLeftPadded(pre, tr);
  }

  lemma TrimRightStep(s: string)
    requires s != [] && IsSpace(s[|s| - 1])
    ensures TrimRight(s) == TrimRight(s[..|s| - 1])
  {
  }

  lemma {:induction false} AllBlankTrimRight(s: string)
    requires TrimLeft(s) == []
    ensures TrimRight(s) == []
    decreases |s|
  {
    if s != [] {
      assert IsSpace(s[|s| - 1]);
      TrimRightStep(s);
      var p := s[..|s| - 1];
      assert TrimLeft(p) == [] by {
        assert forall k :: 0 <= k < |p| ==> IsSpace(p[k]);
        AllBlankTrimLeft(p);
      }
      AllBlankTrimRight(p);
    }
  }

  lemma {:induction false} AllBlankTrimLeft(s: string)
    requires forall k :: 0 <= k < |s| ==> IsSpace(s[k])
    ensures TrimLeft(s) == []
    decreases |s|
  {
    if s != [] {
      TrimLeftStep(s);
      AllBlankTrimLeft(s[1..]);
    }
  }

  lemma CollapseNonBlankStart(t: string)
    requires t != [] && !IsSpace(t[0])
    ensures TrimRight(Collapse(t)) != []
  {
    CollapseCharStep(t);
    TrimRightOfNonBlankStart(Collapse(t));
  }

  /** A text starting with a non-blank keeps that character after trailing whitespace goes. */
  lemma TrimRightOfNonBlankStart(t: string)
    requires t != [] && !IsSpace(t[0])
    ensures TrimRight(t) != [] && TrimRight(t)[0] == t[0]
  {
  }

  /** Leading blanks before a text that starts with a non-blank are all dropped. */
  lemma {:induction false} TrimLeftPadded(pre: string, t: string)
    requires forall k :: 0 <= k < |pre| ==> IsSpace(pre[k])
    requires t == [] || !IsSpace(t[0])
    ensures TrimLeft(pre + t) == t
    decreases |pre|
  {
    if pre == [] {
      assert pre + t == t;
    } else {
      assert (pre + t)[1..] == pre[1..] + t;
      TrimLeftPadded(pre[1..], t);
    }
  }

  /** Both forms of `_norm_txt` give the same text. */
  lemma NormFormsAgree(s: Option<string>)
    ensures NormSeries(s) == NormStr(s)
  {
    var a := Fold(s.GetOr([]));
    var low := Lower(a);
    LowerKeepsShape(a);
    CollapseTrimLeft(low);
    var l := TrimLeft(low);
    CollapseTrimRight(l);
    assert Collapse(Strip(low)) == Strip(Collapse(low));
    CollapseLower(a);
    CollapseAscii(a);
    StripLower(Collapse(a));
  }
}
