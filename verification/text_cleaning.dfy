/** `DocumentProcessor.clean_text`: three regular-expression rewrites followed
    by `strip()`.

      1. every maximal run of whitespace becomes one space;
      2. every character that is neither a word character, whitespace nor one of
         `. , ! ? ; : - ( ) [ ] " '` is deleted;
      3. every maximal run of whitespace directly followed by one of
         `. ! ? , ; :` is deleted;
      4. leading and trailing whitespace is removed.

    Whitespace is CPython's whitespace class (the same set for `\s` in `re`,
    `str.isspace` and `str.strip`). The Unicode word class `\w` is too large to
    spell out, so it is a parameter `isWord`; nothing below assumes anything
    about it. */
module TextCleaning {

  type WordClass = char -> bool

  /** CPython's whitespace characters. */
  predicate IsSpace(c: char) {
    var n := c as int;
    || (9 <= n <= 13) || (28 <= n <= 32)
    || n == 0x85 || n == 0xA0 || n == 0x1680
    || (0x2000 <= n <= 0x200A)
    || n == 0x2028 || n == 0x2029 || n == 0x202F || n == 0x205F || n == 0x3000
  }

  /** The punctuation step 2 keeps. */
  predicate IsKeptPunctuation(c: char) {
    c in ".,!?;:-()[]\"'"
  }

  /** The punctuation step 3 pulls preceding whitespace onto. */
  predicate IsTightPunctuation(c: char) {
    c in ".!?,;:"
  }

  /** The characters step 2 lets through. */
  predicate Kept(isWord: WordClass, c: char) {
    isWord(c) || IsSpace(c) || IsKeptPunctuation(c)
  }

  /** The characters that can appear in cleaned text. */
  predicate Allowed(isWord: WordClass, c: char) {
    isWord(c) || c == ' ' || IsKeptPunctuation(c)
  }

  predicate AllSpace(s: string) {
    forall i :: 0 <= i < |s| ==> IsSpace(s[i])
  }

  /** The only whitespace character in `s` is the plain space. */
  predicate SpacesAreBlank(s: string) {
    forall i :: 0 <= i < |s| && IsSpace(s[i]) ==> s[i] == ' '
  }

  /** No whitespace character sits directly before one of `. ! ? , ; :`. */
  predicate NoSpaceBeforePunctuation(s: string) {
    forall i :: 0 <= i < |s| - 1 ==> !(IsSpace(s[i]) && IsTightPunctuation(s[i + 1]))
  }

  /** The non-whitespace characters of `s`, in order. */
  function NonSpace(s: string): string
    decreases |s|
  {
    if s == [] then [] else (if IsSpace(s[0]) then [] else [s[0]]) + NonSpace(s[1..])
  }

  /** The non-whitespace characters of `s` that survive step 2, in order: an
      independent statement of what cleaning must keep. */
  function KeptText(isWord: WordClass, s: string): string
    decreases |s|
  {
    if s == [] then []
    else (if !IsSpace(s[0]) && Kept(isWord, s[0]) then [s[0]] else []) + KeptText(isWord, s[1..])
  }

  /** Length of the maximal whitespace run at the start of `s`. */
  function LeadingSpaces(s: string): (k: nat)
    ensures k <= |s|
    ensures AllSpace(s[..k])
    ensures k < |s| ==> !IsSpace(s[k])
    decreases |s|
  {
    if s == [] || !IsSpace(s[0]) then 0 else 1 + LeadingSpaces(s[1..])
  }

  /** Step 1, `re.sub(r'\s+', ' ', text)`. */
  function CollapseWhitespace(s: string): (r: string)
    ensures SpacesAreBlank(r)
    ensures forall i :: 0 <= i < |r| - 1 ==> !(IsSpace(r[i]) && IsSpace(r[i + 1]))
    ensures s == [] <==> r == []
    ensures s != [] ==> (IsSpace(r[0]) <==> IsSpace(s[0]))
    decreases |s|
  {
    if s == [] then []
    else if IsSpace(s[0]) then [' '] + CollapseWhitespace(s[LeadingSpaces(s)..])
    else [s[0]] + CollapseWhitespace(s[1..])
  }

  /** Step 2, `re.sub(r'[^\w\s\.\,\!\?\;\:\-\(\)\[\]\"\']+', '', text)`. */
  function RemoveSymbols(isWord: WordClass, s: string): (r: string)
    ensures forall i :: 0 <= i < |r| ==> Kept(isWord, r[i])
    ensures SpacesAreBlank(s) ==> SpacesAreBlank(r)
    decreases |s|
  {
    if s == [] then []
    else (if Kept(isWord, s[0]) then [s[0]] else []) + RemoveSymbols(isWord, s[1..])
  }

  /** Step 3, `re.sub(r'\s+([\.!\?,;:])', r'\1', text)`: the regex engine meets
      each whitespace run at its first character; the run is dropped when the
      character after it is tight punctuation and kept otherwise. */
  function TightenPunctuation(s: string): (r: string)
    ensures forall i :: 0 <= i < |r| ==> r[i] in s
    ensures NoSpaceBeforePunctuation(r)
    ensures s != [] && !IsSpace(s[0]) ==> r != [] && r[0] == s[0]
    decreases |s|
  {
    if s == [] then []
    else if IsSpace(s[0]) then
      var k := LeadingSpaces(s);
      if k < |s| && IsTightPunctuation(s[k]) then
        var rest := TightenPunctuation(s[k + 1..]);
        TightenJoin(s, [s[k]], k + 1, rest);
        [s[k]] + rest
      else
        var rest := TightenPunctuation(s[k..]);
        TightenJoin(s, s[..k], k, rest);
        s[..k] + rest
    else
      var rest := TightenPunctuation(s[1..]);
      TightenJoin(s, [s[0]], 1, rest);
      [s[0]] + rest
  }

  /** A piece of `s` followed by the rewritten suffix `s[k..]`: its characters
      come from `s`, and the join creates no whitespace before punctuation. */
  lemma TightenJoin(s: string, head: string, k: nat, rest: string)
    requires k <= |s| && forall c :: c in head ==> c in s
    requires forall i :: 0 <= i < |rest| ==> rest[i] in s[k..]
    requires NoSpaceBeforePunctuation(head) && NoSpaceBeforePunctuation(rest)
    requires head != [] && rest != [] ==> !(IsSpace(head[|head| - 1]) && IsTightPunctuation(rest[0]))
    ensures forall i :: 0 <= i < |head + rest| ==> (head + rest)[i] in s
    ensures NoSpaceBeforePunctuation(head + rest)
  {
    MembersOfSuffix(s, k);
    forall i | 0 <= i < |head + rest|
      ensures (head + rest)[i] in s
    {
      if i < |head| {
        assert (head + rest)[i] == head[i];
      } else {
        assert (head + rest)[i] == rest[i - |head|];
      }
    }
    NoSpaceBeforePunctuationJoin(head, rest);
  }

  /** `lstrip()`: drops the whitespace run at the start; what is left is a
      suffix of the input. */
  function DropLeading(s: string): (r: string)
    ensures |r| <= |s| && r == s[|s| - |r|..]
    ensures AllSpace(s[..|s| - |r|])
    ensures r == [] || !IsSpace(r[0])
    ensures r == [] <==> AllSpace(s)
    ensures NoSpaceBeforePunctuation(s) ==> NoSpaceBeforePunctuation(r)
    decreases |s|
  {
    if s != [] && IsSpace(s[0]) then
      var r := DropLeading(s[1..]);
      DropLeadingMargins(s, r);
      r
    else
      s
  }

  /** One whitespace character more in front of `s[1..]` keeps the
      margins `DropLeading` promises: what `s[1..]` sheds, `s` sheds too. */
  lemma DropLeadingMargins(s: string, r: string)
    requires s != [] && IsSpace(s[0])
    requires |r| <= |s| - 1 && r == s[1..][|s| - 1 - |r|..]
    requires AllSpace(s[1..][..|s| - 1 - |r|])
    requires r == [] <==> AllSpace(s[1..])
    ensures r == s[|s| - |r|..]
    ensures AllSpace(s[..|s| - |r|])
    ensures r == [] <==> AllSpace(s)
    ensures NoSpaceBeforePunctuation(s) ==> NoSpaceBeforePunctuation(s[1..])
  {
    assert s[1..][|s| - 1 - |r|..] == s[|s| - |r|..];
    assert s == [s[0]] + s[1..];
    assert s[..|s| - |r|] == [s[0]] + s[1..][..|s| - 1 - |r|];
    AllSpaceCons(s[0], s[1..]);
    AllSpaceCons(s[0], s[1..][..|s| - 1 - |r|]);
    if NoSpaceBeforePunctuation(s) {
      forall i | 0 <= i < |s[1..]| - 1
        ensures !(IsSpace(s[1..][i]) && IsTightPunctuation(s[1..][i + 1]))
      {
        assert s[1..][i] == s[i + 1] && s[1..][i + 1] == s[i + 2];
      }
    }
  }

  /** `rstrip()`: drops the whitespace run at the end; what is left is a
      prefix of the input. */
  function DropTrailing(s: string): (r: string)
    ensures |r| <= |s| && r == s[..|r|]
    ensures AllSpace(s[|r|..])
    ensures r == [] || !IsSpace(r[|r| - 1])
    ensures r == [] <==> AllSpace(s)
    ensures NoSpaceBeforePunctuation(s) ==> NoSpaceBeforePunctuation(r)
    decreases |s|
  {
    if s != [] && IsSpace(s[|s| - 1]) then
      var p := s[..|s| - 1];
      var r := DropTrailing(p);
      assert p[..|r|] == s[..|r|];
      assert s == p + [s[|s| - 1]];
      assert s[|r|..] == p[|r|..] + [s[|s| - 1]];
      AllSpaceSnoc(p, s[|s| - 1]);
      AllSpaceSnoc(p[|r|..], s[|s| - 1]);
      r
    else
      s
  }

  /** Step 4, `text.strip()`: the input less a whitespace run at each end. */
  function Strip(s: string): (r: string)
    ensures r == [] || (!IsSpace(r[0]) && !IsSpace(r[|r| - 1]))
    ensures r == [] <==> AllSpace(s)
    ensures exists a :: Trims(s, a, r)
    ensures forall i :: 0 <= i < |r| ==> r[i] in s
    ensures NoSpaceBeforePunctuation(s) ==> NoSpaceBeforePunctuation(r)
  {
    var t := DropLeading(s);
    var r := DropTrailing(t);
    assert r != [] ==> r[0] == t[0];
    assert AllSpace(t) <==> t == [];
    InnerSlice(s, t, r);
    r
  }

  lemma AllSpaceCons(c: char, t: string)
    requires IsSpace(c)
    ensures AllSpace([c] + t) <==> AllSpace(t)
  {
    assert forall i :: 0 <= i < |t| ==> ([c] + t)[i + 1] == t[i];
  }

  lemma AllSpaceSnoc(t: string, c: char)
    requires IsSpace(c)
    ensures AllSpace(t + [c]) <==> AllSpace(t)
  {
    assert forall i :: 0 <= i < |t| ==> (t + [c])[i] == t[i];
  }

  /** `r` is `s` less the whitespace run `s[..a]` before it and the run after it. */
  predicate Trims(s: string, a: int, r: string) {
    0 <= a <= |s| - |r| && r == s[a..a + |r|] && AllSpace(s[..a]) && AllSpace(s[a + |r|..])
  }

  /** A prefix of a suffix is a slice, whose margins are those of the two cuts. */
  lemma InnerSlice(s: string, t: string, r: string)
    requires |t| <= |s| && t == s[|s| - |t|..] && AllSpace(s[..|s| - |t|])
    requires |r| <= |t| && r == t[..|r|] && AllSpace(t[|r|..])
    ensures Trims(s, |s| - |t|, r)
    ensures forall i :: 0 <= i < |r| ==> r[i] in s
  {
    var a := |s| - |t|;
    assert s[a + |r|..] == t[|r|..];
    forall i | 0 <= i < |r|
      ensures r[i] in s
    {
      assert r[i] == t[i] == s[|s| - |t| + i];
    }
  }

  /** `DocumentProcessor.clean_text`. */
  function CleanText(isWord: WordClass, s: string): (r: string)
    ensures forall i :: 0 <= i < |r| ==> Allowed(isWord, r[i])
    ensures SpacesAreBlank(r)
    ensures NoSpaceBeforePunctuation(r)
    ensures r == [] || (!IsSpace(r[0]) && !IsSpace(r[|r| - 1]))
  {
    var kept := RemoveSymbols(isWord, CollapseWhitespace(s));
    var tight := TightenPunctuation(kept);
    var r := Strip(tight);
    KeptAndBlankFromMembers(isWord, tight, kept);
    KeptAndBlankFromMembers(isWord, r, tight);
    r
  }

  // ----- helpers for the proofs above -----

  predicate KeptAndBlank(isWord: WordClass, s: string) {
    forall i :: 0 <= i < |s| ==> Kept(isWord, s[i]) && (IsSpace(s[i]) ==> s[i] == ' ')
  }

  lemma KeptAndBlankFromMembers(isWord: WordClass, a: string, b: string)
    requires forall i :: 0 <= i < |a| ==> a[i] in b
    requires (forall i :: 0 <= i < |b| ==> Kept(isWord, b[i])) && SpacesAreBlank(b)
    ensures KeptAndBlank(isWord, a)
  {
    forall i | 0 <= i < |a|
      ensures Kept(isWord, a[i]) && (IsSpace(a[i]) ==> a[i] == ' ')
    {
      var j :| 0 <= j < |b| && b[j] == a[i];
    }
  }

  lemma MembersOfSuffix(s: string, k: nat)
    requires k <= |s|
    ensures forall c :: c in s[k..] ==> c in s
  {
    forall c | c in s[k..]
      ensures c in s
    {
      var j :| 0 <= j < |s[k..]| && s[k..][j] == c;
      assert s[k + j] == c;
    }
  }

  lemma NoSpaceBeforePunctuationJoin(a: string, b: string)
    requires NoSpaceBeforePunctuation(a) && NoSpaceBeforePunctuation(b)
    requires a != [] && b != [] ==> !(IsSpace(a[|a| - 1]) && IsTightPunctuation(b[0]))
    ensures NoSpaceBeforePunctuation(a + b)
  {
    var s := a + b;
    forall i | 0 <= i < |s| - 1
      ensures !(IsSpace(s[i]) && IsTightPunctuation(s[i + 1]))
    {
      if i + 1 < |a| {
        assert s[i] == a[i] && s[i + 1] == a[i + 1];
      } else if i + 1 == |a| {
        assert s[i] == a[|a| - 1] && s[i + 1] == b[0];
      } else {
        assert s[i] == b[i - |a|] && s[i + 1] == b[i - |a| + 1];
      }
    }
  }

  // ----- what cleaning keeps -----

  lemma {:induction false} NonSpaceAppend(a: string, b: string)
    ensures NonSpace(a + b) == NonSpace(a) + NonSpace(b)
    decreases |a|
  {
    if a == [] {
      assert a + b == b;
    } else {
      assert (a + b)[0] == a[0];
      assert (a + b)[1..] == a[1..] + b;
      NonSpaceAppend(a[1..], b);
    }
  }

  lemma {:induction false} KeptTextAppend(isWord: WordClass, a: string, b: string)
    ensures KeptText(isWord, a + b) == KeptText(isWord, a) + KeptText(isWord, b)
    decreases |a|
  {
    if a == [] {
      assert a + b == b;
    } else {
      assert (a + b)[0] == a[0];
      assert (a + b)[1..] == a[1..] + b;
      KeptTextAppend(isWord, a[1..], b);
    }
  }

  lemma {:induction false} AllSpaceNoNonSpace(s: string)
    requires AllSpace(s)
    ensures NonSpace(s) == []
    decreases |s|
  {
    if s != [] {
      AllSpaceNoNonSpace(s[1..]);
    }
  }

  lemma {:induction false} AllSpaceNoKeptText(isWord: WordClass, s: string)
    requires AllSpace(s)
    ensures KeptText(isWord, s) == []
    decreases |s|
  {
    if s != [] {
      AllSpaceNoKeptText(isWord, s[1..]);
    }
  }

  /** Step 1 only rewrites whitespace, so it keeps the visible text. */
  lemma {:induction false} CollapseKeepsText(isWord: WordClass, s: string)
    ensures KeptText(isWord, CollapseWhitespace(s)) == KeptText(isWord, s)
    decreases |s|
  {
    if s != [] {
      if IsSpace(s[0]) {
        var k := LeadingSpaces(s);
        CollapseKeepsText(isWord, s[k..]);
        assert s == s[..k] + s[k..];
        KeptTextAppend(isWord, s[..k], s[k..]);
        AllSpaceNoKeptText(isWord, s[..k]);
        KeptTextAppend(isWord, [' '], CollapseWhitespace(s[k..]));
      } else {
        CollapseKeepsText(isWord, s[1..]);
        KeptTextAppend(isWord, [s[0]], CollapseWhitespace(s[1..]));
      }
    }
  }

  /** Step 2 deletes exactly the visible characters that are neither word
      characters nor kept punctuation. */
  lemma {:induction false} RemoveSymbolsKeepsText(isWord: WordClass, s: string)
    ensures NonSpace(RemoveSymbols(isWord, s)) == KeptText(isWord, s)
    decreases |s|
  {
    if s != [] {
      RemoveSymbolsKeepsText(isWord, s[1..]);
      var head := if Kept(isWord, s[0]) then [s[0]] else [];
      NonSpaceAppend(head, RemoveSymbols(isWord, s[1..]));
    }
  }

  /** Step 3 deletes whitespace only. */
  lemma {:induction false} TightenKeepsText(s: string)
    ensures NonSpace(TightenPunctuation(s)) == NonSpace(s)
    decreases |s|
  {
    if s != [] {
      if IsSpace(s[0]) {
        var k := LeadingSpaces(s);
        if k < |s| && IsTightPunctuation(s[k]) {
          TightenKeepsText(s[k + 1..]);
          DroppedRunKeepsText(s, k, TightenPunctuation(s[k + 1..]));
        } else {
          TightenKeepsText(s[k..]);
          KeptRunKeepsText(s, k, TightenPunctuation(s[k..]));
        }
      } else {
        TightenKeepsText(s[1..]);
        NonSpaceAppend([s[0]], TightenPunctuation(s[1..]));
      }
    }
  }

  /** Replacing a leading whitespace run and the character after it by that
      character keeps the visible text. */
  lemma DroppedRunKeepsText(s: string, k: nat, tail: string)
    requires k < |s| && AllSpace(s[..k])
    requires NonSpace(tail) == NonSpace(s[k + 1..])
    ensures NonSpace([s[k]] + tail) == NonSpace(s)
  {
    assert s == s[..k] + ([s[k]] + s[k + 1..]);
    NonSpaceAppend(s[..k], [s[k]] + s[k + 1..]);
    AllSpaceNoNonSpace(s[..k]);
    NonSpaceAppend([s[k]], s[k + 1..]);
    NonSpaceAppend([s[k]], tail);
  }

  /** Keeping a leading whitespace run in front of a rewritten rest keeps the
      visible text. */
  lemma KeptRunKeepsText(s: string, k: nat, tail: string)
    requires k <= |s| && AllSpace(s[..k])
    requires NonSpace(tail) == NonSpace(s[k..])
    ensures NonSpace(s[..k] + tail) == NonSpace(s)
  {
    assert s == s[..k] + s[k..];
    NonSpaceAppend(s[..k], s[k..]);
    NonSpaceAppend(s[..k], tail);
  }

  lemma {:induction false} DropLeadingKeepsText(s: string)
    ensures NonSpace(DropLeading(s)) == NonSpace(s)
    decreases |s|
  {
    if s != [] && IsSpace(s[0]) {
      DropLeadingKeepsText(s[1..]);
    }
  }

  lemma {:induction false} DropTrailingKeepsText(s: string)
    ensures NonSpace(DropTrailing(s)) == NonSpace(s)
    decreases |s|
  {
    if s != [] && IsSpace(s[|s| - 1]) {
      var p := s[..|s| - 1];
      DropTrailingKeepsText(p);
      assert s == p + [s[|s| - 1]];
      NonSpaceSpaceLast(p, s[|s| - 1]);
    }
  }

  lemma NonSpaceSpaceLast(p: string, c: char)
    requires IsSpace(c)
    ensures NonSpace(p + [c]) == NonSpace(p)
  {
    NonSpaceAppend(p, [c]);
    assert [c][1..] == [];
    assert NonSpace([c]) == [];
  }

  /** Step 4 deletes whitespace only. */
  lemma StripKeepsText(s: string)
    ensures NonSpace(Strip(s)) == NonSpace(s)
  {
    DropLeadingKeepsText(s);
    DropTrailingKeepsText(DropLeading(s));
  }

  /** Cleaning keeps every visible word character and kept punctuation mark of
      the input, in order, and nothing else that is visible: it deletes only
      whitespace and the removed symbols. */
  lemma CleanTextKeepsText(isWord: WordClass, s: string)
    ensures NonSpace(CleanText(isWord, s)) == KeptText(isWord, s)
  {
    var collapsed := CollapseWhitespace(s);
    var kept := RemoveSymbols(isWord, collapsed);
    var tight := TightenPunctuation(kept);
    StripKeepsText(tight);
    TightenKeepsText(kept);
    RemoveSymbolsKeepsText(isWord, collapsed);
    CollapseKeepsText(isWord, s);
  }

  /** Cleaning does not guarantee single spacing: a removed symbol between two
      spaces leaves both spaces behind. */
  lemma DoubleSpaceSurvives(isWord: WordClass)
    requires isWord('a') && isWord('b') && !isWord('@')
    ensures CleanText(isWord, "a @ b") == "a  b"
  {
    CollapseExample();
    RemoveExample(isWord);
    TightenExample();
    StripExample();
  }

  lemma CollapseExample()
    ensures CollapseWhitespace("a @ b") == "a @ b"
  {
    var s := "a @ b";
    assert s[1..] == " @ b";
    assert !IsSpace('a');
    CollapseExampleTail();
  }

  lemma CollapseExampleTail()
    ensures CollapseWhitespace(" @ b") == " @ b"
  {
    var s := " @ b";
    assert s[1..] == "@ b" && s[2..] == " b" && s[3..] == "b";
    assert IsSpace(' ') && !IsSpace('@') && !IsSpace('b');
    assert CollapseWhitespace(s[3..]) == "b";
    assert LeadingSpaces(s[2..]) == 1;
    assert CollapseWhitespace(s[2..]) == " b";
    assert CollapseWhitespace(s[1..]) == "@ b";
    assert LeadingSpaces(s) == 1;
  }

  lemma RemoveExample(isWord: WordClass)
    requires isWord('a') && isWord('b') && !isWord('@')
    ensures RemoveSymbols(isWord, "a @ b") == "a  b"
  {
    var s := "a @ b";
    assert s[1..] == " @ b";
    RemoveExampleTail(isWord);
    assert Kept(isWord, 'a');
  }

  lemma RemoveExampleTail(isWord: WordClass)
    requires isWord('b') && !isWord('@')
    ensures RemoveSymbols(isWord, " @ b") == "  b"
  {
    var s := " @ b";
    assert s[1..] == "@ b" && s[2..] == " b" && s[3..] == "b";
    assert Kept(isWord, ' ') && !Kept(isWord, '@') && Kept(isWord, 'b');
    assert RemoveSymbols(isWord, s[3..]) == "b";
    assert RemoveSymbols(isWord, s[2..]) == " b";
    assert RemoveSymbols(isWord, s[1..]) == " b";
  }

  lemma TightenExample()
    ensures TightenPunctuation("a  b") == "a  b"
  {
    var s := "a  b";
    assert s[1..] == "  b";
    assert !IsSpace('a');
    TightenExampleTail();
  }

  lemma TightenExampleTail()
    ensures TightenPunctuation("  b") == "  b"
  {
    var s := "  b";
    assert s[2..] == "b" && s[..2] == "  ";
    assert IsSpace(' ') && !IsSpace('b') && !IsTightPunctuation('b');
    assert TightenPunctuation(s[2..]) == "b";
    assert LeadingSpaces(s) == 2;
  }

  lemma StripExample()
    ensures Strip("a  b") == "a  b"
  {
    var s := "a  b";
    assert !IsSpace(s[0]) && !IsSpace(s[|s| - 1]);
    assert DropLeading(s) == s;
    assert DropTrailing(s) == s;
  }

  // ----- where whitespace survives: reference definitions -----

  /** Every whitespace character replaced by a plain space. */
  function Blanked(s: string): string
    decreases |s|
  {
    if s == [] then [] else [if IsSpace(s[0]) then ' ' else s[0]] + Blanked(s[1..])
  }

  /** Every plain space that directly follows another plain space deleted. */
  function Squeeze(s: string): string
    decreases |s|
  {
    if |s| <= 1 then s
    else if s[0] == ' ' && s[1] == ' ' then Squeeze(s[1..])
    else [s[0]] + Squeeze(s[1..])
  }

  /** Step 1 is blanking followed by squeezing: each whitespace run becomes
      exactly one space and nothing else changes. */
  lemma {:induction false} CollapseMatchesReference(s: string)
    ensures CollapseWhitespace(s) == Squeeze(Blanked(s))
    decreases |s|
  {
    if s != [] {
      if IsSpace(s[0]) {
        var k := LeadingSpaces(s);
        CollapseMatchesReference(s[k..]);
        SqueezeBlankRun(s, k);
      } else {
        CollapseMatchesReference(s[1..]);
        assert Blanked(s) == [s[0]] + Blanked(s[1..]);
        if s[1..] == [] {
          assert Blanked(s) == [s[0]];
        } else {
          assert Blanked(s)[1..] == Blanked(s[1..]);
        }
      }
    }
  }

  /** A leading whitespace run of length `k` squeezes to one space. */
  lemma {:induction false} SqueezeBlankRun(s: string, k: nat)
    requires 1 <= k <= |s| && AllSpace(s[..k])
    requires k < |s| ==> !IsSpace(s[k])
    ensures Squeeze(Blanked(s)) == [' '] + Squeeze(Blanked(s[k..]))
    decreases k
  {
    assert IsSpace(s[0]);
    var b := Blanked(s);
    assert b == [' '] + Blanked(s[1..]);
    if k == 1 {
      if |s| == 1 {
        assert b == [' '];
      } else {
        assert Blanked(s[1..]) == [s[1]] + Blanked(s[2..]);
        assert b[1] == s[1] != ' ';
        assert b[1..] == Blanked(s[1..]);
      }
    } else {
      assert IsSpace(s[1]);
      assert Blanked(s[1..]) == [' '] + Blanked(s[2..]);
      assert b[1] == ' ' && b[1..] == Blanked(s[1..]);
      var u := s[1..][..k - 1];
      assert AllSpace(u) by {
        forall i | 0 <= i < |u| ensures IsSpace(u[i]) {
          assert u[i] == s[..k][i + 1];
        }
      }
      SqueezeBlankRun(s[1..], k - 1);
      assert s[1..][k - 1..] == s[k..];
    }
  }

  /** The whitespace characters of `s`, in order. */
  function Spaces(s: string): string
    decreases |s|
  {
    if s == [] then [] else (if IsSpace(s[0]) then [s[0]] else []) + Spaces(s[1..])
  }

  /** Step 2 keeps every whitespace character: together with
      `RemoveSymbolsKeepsText` it deletes exactly the removed symbols. */
  lemma {:induction false} RemoveSymbolsKeepsSpaces(isWord: WordClass, s: string)
    ensures Spaces(RemoveSymbols(isWord, s)) == Spaces(s)
    decreases |s|
  {
    if s != [] {
      RemoveSymbolsKeepsSpaces(isWord, s[1..]);
      var head := if Kept(isWord, s[0]) then [s[0]] else [];
      SpacesAppend(head, RemoveSymbols(isWord, s[1..]));
    }
  }

  lemma {:induction false} SpacesAppend(a: string, b: string)
    ensures Spaces(a + b) == Spaces(a) + Spaces(b)
    decreases |a|
  {
    if a == [] {
      assert a + b == b;
    } else {
      var head := if IsSpace(a[0]) then [a[0]] else [];
      assert (a + b)[0] == a[0];
      assert (a + b)[1..] == a[1..] + b;
      assert Spaces(a) == head + Spaces(a[1..]);
      assert Spaces(a + b) == head + Spaces(a[1..] + b);
      SpacesAppend(a[1..], b);
      assert head + (Spaces(a[1..]) + Spaces(b)) == (head + Spaces(a[1..])) + Spaces(b);
    }
  }

  /** Every character is one step 2 lets through. */
  predicate AllKept(isWord: WordClass, s: string) {
    forall i :: 0 <= i < |s| ==> Kept(isWord, s[i])
  }

  /** Step 2 leaves text with nothing to remove unchanged. */
  lemma {:induction false} RemoveSymbolsIdentity(isWord: WordClass, s: string)
    requires AllKept(isWord, s)
    ensures RemoveSymbols(isWord, s) == s
    decreases |s|
  {
    if s != [] {
      assert AllKept(isWord, s[1..]) by {
        forall i | 0 <= i < |s[1..]| ensures Kept(isWord, s[1..][i]) {
          assert s[1..][i] == s[i + 1];
        }
      }
      RemoveSymbolsIdentity(isWord, s[1..]);
      assert Kept(isWord, s[0]);
      assert s == [s[0]] + s[1..];
    }
  }

  /** The whitespace character at the front of `s` is pulled onto punctuation:
      the first visible character after it is one of `. ! ? , ; :`. */
  predicate PulledOnto(s: string) {
    s != [] && IsSpace(s[0]) && LeadingSpaces(s) < |s| && IsTightPunctuation(s[LeadingSpaces(s)])
  }

  /** Step 3 character by character: a whitespace character is deleted exactly
      when the first visible character after it is tight punctuation. */
  function TightRef(s: string): string
    decreases |s|
  {
    if s == [] then [] else (if PulledOnto(s) then [] else [s[0]]) + TightRef(s[1..])
  }

  /** The leading whitespace run is determined by where the first visible
      character is. */
  lemma {:induction false} LeadingSpacesAt(s: string, n: nat)
    requires n <= |s| && AllSpace(s[..n]) && (n < |s| ==> !IsSpace(s[n]))
    ensures LeadingSpaces(s) == n
    decreases n
  {
    if n > 0 {
      assert IsSpace(s[..n][0]);
      var u := s[1..][..n - 1];
      assert AllSpace(u) by {
        forall i | 0 <= i < |u| ensures IsSpace(u[i]) {
          assert u[i] == s[..n][i + 1];
        }
      }
      assert n < |s| ==> s[1..][n - 1] == s[n];
      LeadingSpacesAt(s[1..], n - 1);
    }
  }

  /** Step 3 agrees with its character-by-character reference. */
  lemma {:induction false} TightenMatchesReference(s: string)
    ensures TightenPunctuation(s) == TightRef(s)
    decreases |s|
  {
    if s != [] {
      if IsSpace(s[0]) {
        var k := LeadingSpaces(s);
        if k < |s| && IsTightPunctuation(s[k]) {
          TightenMatchesReference(s[k + 1..]);
          PulledRun(s, 0, k);
          assert !PulledOnto(s[k..]);
          assert TightRef(s[k..]) == [s[k]] + TightRef(s[k..][1..]);
          assert s[k..][1..] == s[k + 1..];
        } else {
          TightenMatchesReference(s[k..]);
          KeptRun(s, 0, k);
        }
      } else {
        TightenMatchesReference(s[1..]);
        assert !PulledOnto(s);
      }
    }
  }

  /** Whitespace from `j` up to tight punctuation at `k` is all deleted. */
  lemma {:induction false} PulledRun(s: string, j: nat, k: nat)
    requires j <= k < |s| && AllSpace(s[j..k]) && !IsSpace(s[k]) && IsTightPunctuation(s[k])
    ensures TightRef(s[j..]) == TightRef(s[k..])
    decreases k - j
  {
    if j < k {
      FrontOfRun(s, j, k);
      assert s[j..][k - j] == s[k];
      assert PulledOnto(s[j..]);
      PulledRun(s, j + 1, k);
    }
  }

  /** Whitespace from `j` up to `k`, where no tight punctuation follows, is all kept. */
  lemma {:induction false} KeptRun(s: string, j: nat, k: nat)
    requires j <= k <= |s| && AllSpace(s[j..k])
    requires k < |s| ==> !IsSpace(s[k]) && !IsTightPunctuation(s[k])
    ensures TightRef(s[j..]) == s[j..k] + TightRef(s[k..])
    decreases k - j
  {
    if j < k {
      FrontOfRun(s, j, k);
      assert !PulledOnto(s[j..]) by {
        if k < |s| {
          assert s[j..][k - j] == s[k];
        }
      }
      KeptRun(s, j + 1, k);
      assert s[j..k] == [s[j]] + s[j + 1..k];
    }
  }

  /** The front of a whitespace run `s[j..k]`: a whitespace character whose
      run reaches `k`, followed by the rest of the run. */
  lemma FrontOfRun(s: string, j: nat, k: nat)
    requires j < k <= |s| && AllSpace(s[j..k]) && (k < |s| ==> !IsSpace(s[k]))
    ensures IsSpace(s[j]) && LeadingSpaces(s[j..]) == k - j
    ensures AllSpace(s[j + 1..k]) && s[j..][1..] == s[j + 1..]
  {
    var t := s[j..];
    assert t[..k - j] == s[j..k];
    assert k < |s| ==> t[k - j] == s[k];
    LeadingSpacesAt(t, k - j);
    assert s[j] == s[j..k][0];
    var u := s[j + 1..k];
    assert AllSpace(u) by {
      forall i | 0 <= i < |u| ensures IsSpace(u[i]) {
        assert u[i] == s[j..k][i + 1];
      }
    }
  }

  /** No character is one of `. ! ? , ; :`. */
  predicate NoTightPunctuation(s: string) {
    forall i :: 0 <= i < |s| ==> !IsTightPunctuation(s[i])
  }

  /** Step 3 leaves text without tight punctuation unchanged. */
  lemma {:induction false} TightenIdentity(s: string)
    requires NoTightPunctuation(s)
    ensures TightenPunctuation(s) == s
  {
    TightenMatchesReference(s);
    TightRefIdentity(s);
  }

  lemma {:induction false} TightRefIdentity(s: string)
    requires NoTightPunctuation(s)
    ensures TightRef(s) == s
    decreases |s|
  {
    if s != [] {
      assert !PulledOnto(s);
      assert NoTightPunctuation(s[1..]) by {
        forall i | 0 <= i < |s[1..]| ensures !IsTightPunctuation(s[1..][i]) {
          assert s[1..][i] == s[i + 1];
        }
      }
      TightRefIdentity(s[1..]);
      assert s == [s[0]] + s[1..];
    }
  }

  /** Text whose every character is kept and none is tight punctuation. */
  predicate Plain(isWord: WordClass, s: string) {
    AllKept(isWord, s) && NoTightPunctuation(s)
  }

  /** Step 1 keeps text plain: it only turns whitespace into spaces. */
  lemma {:induction false} CollapseKeepsPlain(isWord: WordClass, s: string)
    requires Plain(isWord, s)
    ensures Plain(isWord, CollapseWhitespace(s))
    decreases |s|
  {
    if s != [] {
      var k := if IsSpace(s[0]) then LeadingSpaces(s) else 1;
      var head := if IsSpace(s[0]) then [' '] else [s[0]];
      assert Plain(isWord, s[k..]) by {
        forall i | 0 <= i < |s[k..]|
          ensures Kept(isWord, s[k..][i]) && !IsTightPunctuation(s[k..][i])
        {
          assert s[k..][i] == s[i + k];
        }
      }
      CollapseKeepsPlain(isWord, s[k..]);
      var r := head + CollapseWhitespace(s[k..]);
      assert CollapseWhitespace(s) == r;
      forall i | 0 <= i < |r| ensures Kept(isWord, r[i]) && !IsTightPunctuation(r[i]) {
        if i > 0 {
          assert r[i] == CollapseWhitespace(s[k..])[i - 1];
        }
      }
    }
  }

  /** On plain text, cleaning is exactly whitespace normalisation: every
      whitespace run inside the text becomes one space, and the ends are
      stripped. */
  lemma CleanPlainText(isWord: WordClass, s: string)
    requires Plain(isWord, s)
    ensures CleanText(isWord, s) == Strip(CollapseWhitespace(s))
  {
    var c := CollapseWhitespace(s);
    CollapseKeepsPlain(isWord, s);
    RemoveSymbolsIdentity(isWord, c);
    TightenIdentity(c);
  }

  /** Cleaning agrees with the reference steps: blank and squeeze whitespace,
      delete the removed symbols, delete each whitespace character whose next
      visible character is tight punctuation, and strip the ends. */
  lemma CleanTextMatchesReference(isWord: WordClass, s: string)
    ensures CleanText(isWord, s) == Strip(TightRef(RemoveSymbols(isWord, Squeeze(Blanked(s)))))
  {
    CollapseMatchesReference(s);
    TightenMatchesReference(RemoveSymbols(isWord, CollapseWhitespace(s)));
  }
}
