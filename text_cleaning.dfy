/** Text normalisation done by DocumentProcessor.clean_text: collapse runs of
    whitespace into one space, delete characters outside the allow-list,
    strip both ends. */
module TextCleaning {

  /** Python's `\s` (and what `str.split()` / `str.strip()` treat as
      whitespace): the characters for which `str.isspace()` holds. */
  predicate IsSpace(c: char)
  {
    || c == ' ' || c == '\t' || c == '\n' || c == '\r' || c == '\U{0B}' || c == '\U{0C}'
    || ('\U{1C}' <= c <= '\U{1F}')
    || c == '\U{85}' || c == '\U{A0}' || c == '\U{1680}'
    || ('\U{2000}' <= c <= '\U{200A}')
    || c == '\U{2028}' || c == '\U{2029}' || c == '\U{202F}' || c == '\U{205F}' || c == '\U{3000}'
  }

  /** `\w`, restricted to ASCII letters, digits and the underscore. */
  predicate IsWordChar(c: char)
  {
    ('a' <= c <= 'z') || ('A' <= c <= 'Z') || ('0' <= c <= '9') || c == '_'
  }

  /** The punctuation kept by clean_text: . , ! ? ; : - ' " ( ) */
  predicate IsKeptPunctuation(c: char)
  {
    c == '.' || c == ',' || c == '!' || c == '?' || c == ';' || c == ':'
    || c == '-' || c == '\'' || c == '"' || c == '(' || c == ')'
  }

  /** A character the second rewrite of clean_text keeps. */
  predicate Allowed(c: char)
  {
    IsWordChar(c) || IsSpace(c) || IsKeptPunctuation(c)
  }

  /** No whitespace at either end. */
  predicate Trimmed(s: string)
  {
    s == [] || (!IsSpace(s[0]) && !IsSpace(s[|s| - 1]))
  }

  /** Every whitespace character of `s` is a plain space. */
  predicate PlainSpaces(s: string)
  {
    forall c :: c in s && IsSpace(c) ==> c == ' '
  }

  /** Every character of `s` is allowed. */
  predicate AllAllowed(s: string)
  {
    forall c :: c in s ==> Allowed(c)
  }

  /** Drops the leading whitespace of `s`. */
  function DropSpaces(s: string): (r: string)
    ensures |r| <= |s| && r == s[|s| - |r|..]
    ensures r == [] || !IsSpace(r[0])
    ensures forall i :: 0 <= i < |s| - |r| ==> IsSpace(s[i])
  {
    if s != [] && IsSpace(s[0]) then
      var r := DropSpaces(s[1..]);
      assert s[1..][|s| - 1 - |r|..] == s[|s| - |r|..];
      assert forall i :: 1 <= i < |s| - |r| ==> s[i] == s[1..][i - 1];
      r
    else s
  }

  /** Drops the trailing whitespace of `s`. */
  function DropTrailingSpaces(s: string): (r: string)
    ensures |r| <= |s| && r == s[..|r|]
    ensures r == [] || !IsSpace(r[|r| - 1])
    ensures forall i :: |r| <= i < |s| ==> IsSpace(s[i])
  {
    if s != [] && IsSpace(s[|s| - 1]) then DropTrailingSpaces(s[..|s| - 1]) else s
  }

  /** Python's `str.strip()`: the result has no whitespace at either end and
      is made of characters of `s`; a string that is already trimmed is
      returned as is. `StripSlice` adds that the result is the slice of `s`
      left after cutting off whitespace at both ends. */
  function Strip(s: string): (r: string)
    ensures Trimmed(r) && |r| <= |s|
    ensures forall c :: c in r ==> c in s
    ensures Trimmed(s) ==> r == s
  {
    var t := DropSpaces(s);
    var r := DropTrailingSpaces(t);
    assert forall c :: c in r ==> c in t;
    r
  }

  /** The stripped text is the slice of `s` between the whitespace that
      starts it and the whitespace that ends it; with `Trimmed(Strip(s))`
      this fixes the slice: only whitespace is cut, and all of it at the
      ends. */
  lemma StripSlice(s: string)
    ensures exists i, j :: 0 <= i <= j <= |s| && Strip(s) == s[i..j] && IsSpaceOutside(s, i, j)
  {
    var t := DropSpaces(s);
    var r := DropTrailingSpaces(t);
    var i := |s| - |t|;
    var j := i + |r|;
    assert Strip(s) == s[i..j] by {
      assert Strip(s) == r;
      assert r == t[..|r|] && t == s[i..];
    }
    assert IsSpaceOutside(s, i, j) by {
      forall k | j <= k < |s| ensures IsSpace(s[k]) {
        assert s[k] == t[k - i];
      }
    }
  }

  /** Leading whitespace does not change the stripped text. */
  lemma StripLeadingSpace(x: string)
    ensures Strip(" " + x) == Strip(x)
  {
    assert (" " + x)[1..] == x;
  }

  /** Trailing whitespace is dropped only at the end: text that starts with
      content keeps whatever comes before it. */
  lemma {:induction false} DropTrailingAppend(a: string, b: string)
    requires b != [] && !IsSpace(b[0])
    ensures DropTrailingSpaces(a + b) == a + DropTrailingSpaces(b)
    decreases |b|
  {
    var ab := a + b;
    if IsSpace(b[|b| - 1]) {
      var b' := b[..|b| - 1];
      assert ab[..|ab| - 1] == a + b';
      DropTrailingAppend(a, b');
    } else {
      assert ab[|ab| - 1] == b[|b| - 1];
    }
  }

  /** A trimmed word followed by one space strips to the word. */
  lemma StripWordSpace(w: string)
    requires w != [] && Trimmed(w)
    ensures Strip(w + " ") == w
  {
    var x := w + " ";
    assert x[0] == w[0];
    assert x[..|x| - 1] == w;
  }

  /** Stripping a word, a space and a text that starts with content strips
      only the end of that text. */
  lemma StripWordSpaceText(w: string, d: string)
    requires w != [] && !IsSpace(w[0]) && d != [] && !IsSpace(d[0])
    ensures Strip(w + (" " + d)) == w + " " + Strip(d)
  {
    var a := w + " ";
    assert w + (" " + d) == a + d;
    assert (a + d)[0] == w[0];
    DropTrailingAppend(a, d);
  }

  /** Everything of `s` before `i` and from `j` on is whitespace. */
  predicate IsSpaceOutside(s: string, i: int, j: int)
    requires 0 <= i <= j <= |s|
  {
    (forall k :: 0 <= k < i ==> IsSpace(s[k])) && (forall k :: j <= k < |s| ==> IsSpace(s[k]))
  }

  /** `re.sub(r'\s+', ' ', s)`: every maximal run of whitespace becomes one
      space. What this means is stated by `CollapseShape`, `CollapseAppend`,
      `CollapseSpaceRun`, `CollapseNoSpace` and `NonSpaceCollapse`. */
  function CollapseWhitespace(s: string): (r: string)
    decreases |s|
  {
    if s == [] then []
    else if IsSpace(s[0]) then " " + CollapseWhitespace(DropSpaces(s[1..]))
    else [s[0]] + CollapseWhitespace(s[1..])
  }

  /** The collapsed text holds no whitespace other than the plain space and
      never two whitespace characters side by side, starts with whitespace
      exactly when `s` does, and every other character of it comes from
      `s`. */
  lemma {:induction false} CollapseShape(s: string)
    ensures PlainSpaces(CollapseWhitespace(s)) && SingleSpaced(CollapseWhitespace(s))
    ensures s != [] ==> CollapseWhitespace(s) != [] && (IsSpace(s[0]) <==> IsSpace(CollapseWhitespace(s)[0]))
    ensures forall c :: c in CollapseWhitespace(s) && c != ' ' ==> c in s
    decreases |s|
  {
    if s != [] {
      var t := if IsSpace(s[0]) then DropSpaces(s[1..]) else s[1..];
      var x := if IsSpace(s[0]) then ' ' else s[0];
      CollapseShape(t);
      var c := CollapseWhitespace(t);
      assert CollapseWhitespace(s) == [x] + c;
      SingleSpacedCons(x, c);
      assert forall ch :: ch in t ==> ch in s;
    }
  }

  lemma SingleSpacedCons(x: char, c: string)
    requires SingleSpaced(c) && (c == [] || !IsSpace(x) || !IsSpace(c[0]))
    ensures SingleSpaced([x] + c)
  {
    var r := [x] + c;
    forall i | 0 < i < |r| ensures !SpacePair(r, i) {
      if i > 1 {
        assert r[i - 1] == c[i - 2] && r[i] == c[i - 1];
        assert !SpacePair(c, i - 1);
      }
    }
  }

  /** `re.sub(r'[^\w\s.,!?;:\-\'"()]', '', s)`: every character of the
      result is allowed and comes from `s`. That it is a filter, keeping
      every allowed character (whitespace included) in order and nothing
      else, is stated by `RemoveDisallowedAppend`, `RemoveDisallowedChar`
      and `RemoveDisallowedCounts`. */
  function RemoveDisallowed(s: string): (r: string)
    ensures AllAllowed(r)
    ensures forall c :: c in r ==> c in s
  {
    if s == [] then [] else (if Allowed(s[0]) then [s[0]] else []) + RemoveDisallowed(s[1..])
  }

  /** The characters of `s` that are not whitespace, in order. */
  function NonSpace(s: string): string
  {
    if s == [] then [] else (if IsSpace(s[0]) then [] else [s[0]]) + NonSpace(s[1..])
  }

  /** The allowed characters of `s` that are not whitespace, in order. */
  function Kept(s: string): string
  {
    if s == [] then [] else (if Allowed(s[0]) && !IsSpace(s[0]) then [s[0]] else []) + Kept(s[1..])
  }

  /** DocumentProcessor.clean_text: collapse whitespace, delete the
      characters that are not allowed, strip. The result holds only allowed
      characters and has no whitespace at either end; `CleanShape`,
      `CleanKeepsContent`, `CleanEmptyIff` and `CleanIdempotentIff` say the
      rest. */
  function Clean(text: string): (r: string)
    ensures AllAllowed(r) && Trimmed(r)
  {
    Strip(RemoveDisallowed(CollapseWhitespace(text)))
  }

  // ---------------------------------------------------------------------
  // Helper facts about the rewrites

  lemma NonSpaceSplit(t: string, n: nat)
    requires n <= |t|
    ensures NonSpace(t) == NonSpace(t[..n]) + NonSpace(t[n..])
  {
    assert t == t[..n] + t[n..];
    NonSpaceAppend(t[..n], t[n..]);
  }

  lemma {:induction false} NonSpaceAppend(a: string, b: string)
    ensures NonSpace(a + b) == NonSpace(a) + NonSpace(b)
  {
    if a == [] {
      assert a + b == b;
    } else {
      AppendTail(a, b);
      NonSpaceAppend(a[1..], b);
      var h: string := if IsSpace(a[0]) then [] else [a[0]];
      assert NonSpace(a + b) == h + NonSpace(a[1..] + b);
      assert NonSpace(a) == h + NonSpace(a[1..]);
      ConcatAssoc(h, NonSpace(a[1..]), NonSpace(b));
    }
  }

  /** Leading whitespace holds no content. */
  lemma {:induction false} NonSpaceDropSpaces(s: string)
    ensures NonSpace(DropSpaces(s)) == NonSpace(s)
  {
    if s != [] && IsSpace(s[0]) {
      NonSpaceDropSpaces(s[1..]);
    }
  }

  /** Trailing whitespace holds no content. */
  lemma {:induction false} NonSpaceDropTrailingSpaces(s: string)
    ensures NonSpace(DropTrailingSpaces(s)) == NonSpace(s)
  {
    if s != [] && IsSpace(s[|s| - 1]) {
      var init := s[..|s| - 1];
      NonSpaceDropTrailingSpaces(init);
      assert s == init + [s[|s| - 1]];
      NonSpaceAppend(init, [s[|s| - 1]]);
    }
  }

  lemma {:induction false} KeptDropSpaces(s: string)
    ensures Kept(DropSpaces(s)) == Kept(s)
  {
    if s != [] && IsSpace(s[0]) {
      KeptDropSpaces(s[1..]);
    }
  }

  /** Collapsing whitespace keeps the allowed non-space characters, in order. */
  lemma {:induction false} KeptCollapse(s: string)
    ensures Kept(CollapseWhitespace(s)) == Kept(s)
    decreases |s|
  {
    if s == [] {
    } else if IsSpace(s[0]) {
      var rest := DropSpaces(s[1..]);
      var c := CollapseWhitespace(rest);
      KeptCollapse(rest);
      KeptDropSpaces(s[1..]);
      assert (" " + c)[0] == ' ' && (" " + c)[1..] == c;
    } else {
      var c := CollapseWhitespace(s[1..]);
      KeptCollapse(s[1..]);
      assert ([s[0]] + c)[0] == s[0] && ([s[0]] + c)[1..] == c;
    }
  }

  /** Leading whitespace of a concatenation: when `a` has content, only
      `a`'s is dropped; otherwise `a` goes entirely, with `b`'s own. */
  lemma {:induction false} DropSpacesAppend(a: string, b: string)
    ensures DropSpaces(a + b) == if DropSpaces(a) != [] then DropSpaces(a) + b else DropSpaces(b)
  {
    if a == [] {
      assert a + b == b;
    } else if IsSpace(a[0]) {
      assert (a + b)[0] == a[0] && (a + b)[1..] == a[1..] + b;
      DropSpacesAppend(a[1..], b);
    }
  }

  /** `re.sub` works run by run: cutting the text at a point that is not
      inside a whitespace run, collapsing both parts and putting them back
      together gives the collapse of the whole. */
  lemma {:induction false} CollapseAppend(a: string, b: string)
    requires (a != [] && !IsSpace(a[|a| - 1])) || (b != [] && !IsSpace(b[0]))
    ensures CollapseWhitespace(a + b) == CollapseWhitespace(a) + CollapseWhitespace(b)
    decreases |a|
  {
    if a == [] {
      assert a + b == b;
    } else if !IsSpace(a[0]) {
      if a[1..] == [] {
        assert a[1..] + b == b;
      } else {
        assert a[1..][|a[1..]| - 1] == a[|a| - 1];
        CollapseAppend(a[1..], b);
      }
      CollapseAppendWordStep(a, b);
    } else {
      var d := DropSpaces(a[1..]);
      if d != [] {
        assert d[|d| - 1] == a[|a| - 1];
        CollapseAppend(d, b);
        CollapseAppendSpaceStep(a, b);
      } else {
        AllSpaceRun(a);
        CollapseAppendRunStep(a, b);
      }
    }
  }

  lemma CollapseAppendWordStep(a: string, b: string)
    requires a != [] && !IsSpace(a[0])
    requires CollapseWhitespace(a[1..] + b) == CollapseWhitespace(a[1..]) + CollapseWhitespace(b)
    ensures CollapseWhitespace(a + b) == CollapseWhitespace(a) + CollapseWhitespace(b)
  {
    var x, y, z := [a[0]], CollapseWhitespace(a[1..]), CollapseWhitespace(b);
    assert CollapseWhitespace(a + b) == x + (y + z) by {
      var ab := a + b;
      AppendTail(a, b);
      CollapseHeadWord(ab);
    }
    assert CollapseWhitespace(a) == x + y by {
      CollapseHeadWord(a);
    }
    ConcatAssoc(x, y, z);
  }

  lemma CollapseAppendSpaceStep(a: string, b: string)
    requires a != [] && IsSpace(a[0]) && DropSpaces(a[1..]) != []
    requires CollapseWhitespace(DropSpaces(a[1..]) + b) == CollapseWhitespace(DropSpaces(a[1..])) + CollapseWhitespace(b)
    ensures CollapseWhitespace(a + b) == CollapseWhitespace(a) + CollapseWhitespace(b)
  {
    var d := DropSpaces(a[1..]);
    var y, z := CollapseWhitespace(d), CollapseWhitespace(b);
    var ab := a + b;
    assert DropSpaces(ab[1..]) == d + b by {
      AppendTail(a, b);
      DropSpacesAppend(a[1..], b);
    }
    assert CollapseWhitespace(ab) == " " + CollapseWhitespace(DropSpaces(ab[1..])) by {
      assert ab[0] == a[0];
      CollapseHeadSpace(ab);
    }
    assert CollapseWhitespace(a) == " " + y by {
      CollapseHeadSpace(a);
    }
    ConcatAssoc(" ", y, z);
  }

  lemma CollapseAppendRunStep(a: string, b: string)
    requires a != [] && IsSpace(a[0]) && DropSpaces(a[1..]) == []
    requires b != [] && !IsSpace(b[0])
    ensures CollapseWhitespace(a + b) == CollapseWhitespace(a) + CollapseWhitespace(b)
  {
    assert CollapseWhitespace(a + b) == " " + CollapseWhitespace(b) by {
      var ab := a + b;
      AppendTail(a, b);
      CollapseHeadSpace(ab);
      DropSpacesAppend(a[1..], b);
      assert DropSpaces(b) == b;
    }
    assert CollapseWhitespace(a) == " " by {
      CollapseHeadSpace(a);
    }
  }

  lemma AppendTail(a: string, b: string)
    requires a != []
    ensures (a + b)[0] == a[0] && (a + b)[1..] == a[1..] + b
  {
  }

  lemma ConcatAssoc(x: string, y: string, z: string)
    ensures x + (y + z) == (x + y) + z
  {
  }

  lemma CollapseHeadWord(s: string)
    requires s != [] && !IsSpace(s[0])
    ensures CollapseWhitespace(s) == [s[0]] + CollapseWhitespace(s[1..])
  {
  }

  lemma CollapseHeadSpace(s: string)
    requires s != [] && IsSpace(s[0])
    ensures CollapseWhitespace(s) == " " + CollapseWhitespace(DropSpaces(s[1..]))
  {
  }

  /** A string whose tail has no content, and that starts with whitespace,
      is whitespace throughout. */
  lemma AllSpaceRun(a: string)
    requires a != [] && IsSpace(a[0]) && DropSpaces(a[1..]) == []
    ensures IsSpace(a[|a| - 1])
  {
    if |a| > 1 {
      assert IsSpace(a[1..][|a| - 2]);
    }
  }

  /** A non-empty run of whitespace becomes one plain space. */
  lemma CollapseSpaceRun(w: string)
    requires w != [] && forall k :: 0 <= k < |w| ==> IsSpace(w[k])
    ensures CollapseWhitespace(w) == " "
  {
    assert DropSpaces(w[1..]) == [];
  }

  /** Text without whitespace is left as it is. */
  lemma {:induction false} CollapseNoSpace(w: string)
    requires forall k :: 0 <= k < |w| ==> !IsSpace(w[k])
    ensures CollapseWhitespace(w) == w
  {
    if w != [] {
      assert forall k :: 0 <= k < |w[1..]| ==> !IsSpace(w[1..][k]) by {
        forall k | 0 <= k < |w[1..]| ensures !IsSpace(w[1..][k]) {
          assert w[1..][k] == w[k + 1];
        }
      }
      CollapseNoSpace(w[1..]);
      assert w == [w[0]] + w[1..];
    }
  }

  /** Collapsing whitespace keeps the non-space characters, in order. */
  lemma {:induction false} NonSpaceCollapse(s: string)
    ensures NonSpace(CollapseWhitespace(s)) == NonSpace(s)
    decreases |s|
  {
    if s == [] {
    } else if IsSpace(s[0]) {
      var rest := DropSpaces(s[1..]);
      var c := CollapseWhitespace(rest);
      NonSpaceCollapse(rest);
      NonSpaceDropSpaces(s[1..]);
      assert (" " + c)[0] == ' ' && (" " + c)[1..] == c;
    } else {
      var c := CollapseWhitespace(s[1..]);
      NonSpaceCollapse(s[1..]);
      assert ([s[0]] + c)[0] == s[0] && ([s[0]] + c)[1..] == c;
    }
  }

  /** After deleting disallowed characters, the non-space content is Kept. */
  lemma {:induction false} NonSpaceRemoveDisallowed(s: string)
    ensures NonSpace(RemoveDisallowed(s)) == Kept(s)
  {
    if s != [] {
      NonSpaceRemoveDisallowed(s[1..]);
      NonSpaceAppend(if Allowed(s[0]) then [s[0]] else [], RemoveDisallowed(s[1..]));
    }
  }

  /** The deletion works character by character: on a concatenation it is
      the concatenation of the deletions. */
  lemma {:induction false} RemoveDisallowedAppend(a: string, b: string)
    ensures RemoveDisallowed(a + b) == RemoveDisallowed(a) + RemoveDisallowed(b)
  {
    if a != [] {
      assert (a + b)[0] == a[0] && (a + b)[1..] == a[1..] + b;
      RemoveDisallowedAppend(a[1..], b);
    } else {
      assert a + b == b;
    }
  }

  /** One character is kept exactly when it is allowed. */
  lemma RemoveDisallowedChar(c: char)
    ensures RemoveDisallowed([c]) == if Allowed(c) then [c] else []
  {
    assert [c][1..] == [];
  }

  /** Every allowed character, whitespace included, occurs in the result as
      often as in `s`; no other character occurs. */
  lemma {:induction false} RemoveDisallowedCounts(s: string)
    ensures forall c :: multiset(RemoveDisallowed(s))[c] == if Allowed(c) then multiset(s)[c] else 0
  {
    if s != [] {
      RemoveDisallowedCounts(s[1..]);
      assert s == [s[0]] + s[1..];
      var head := if Allowed(s[0]) then [s[0]] else [];
      assert RemoveDisallowed(s) == head + RemoveDisallowed(s[1..]);
      assert multiset(s) == multiset([s[0]]) + multiset(s[1..]);
    }
  }

  /** Stripping removes only whitespace. */
  lemma NonSpaceStrip(s: string)
    ensures NonSpace(Strip(s)) == NonSpace(s)
  {
    NonSpaceDropSpaces(s);
    NonSpaceDropTrailingSpaces(DropSpaces(s));
  }

  // ---------------------------------------------------------------------
  // Properties of clean_text

  /** The only whitespace left in the cleaned text is the plain space. */
  lemma CleanShape(text: string)
    ensures PlainSpaces(Clean(text))
  {
    var c := CollapseWhitespace(text);
    CollapseShape(text);
    var x := RemoveDisallowed(c);
    assert forall ch :: ch in x && IsSpace(ch) ==> ch in c;
  }

  /** The non-space characters of the cleaned text are exactly the allowed
      non-space characters of the input, in the same order: apart from
      whitespace nothing is added, dropped or reordered. */
  lemma CleanKeepsContent(text: string)
    ensures NonSpace(Clean(text)) == Kept(text)
  {
    var c := CollapseWhitespace(text);
    NonSpaceStrip(RemoveDisallowed(c));
    NonSpaceRemoveDisallowed(c);
    KeptCollapse(text);
  }

  /** A trimmed string without content is empty. */
  lemma TrimmedNoContentIsEmpty(s: string)
    requires Trimmed(s) && NonSpace(s) == []
    ensures s == []
  {
  }

  /** The cleaned text is empty exactly when the input holds no allowed
      non-space character. */
  lemma CleanEmptyIff(text: string)
    ensures Clean(text) == [] <==> Kept(text) == []
  {
    CleanKeepsContent(text);
    CleanShape(text);
    if Kept(text) == [] {
      TrimmedNoContentIsEmpty(Clean(text));
    }
  }

  /** No two whitespace characters stand side by side. */
  predicate SingleSpaced(s: string)
  {
    forall i :: 0 < i < |s| ==> !SpacePair(s, i)
  }

  /** Positions `i - 1` and `i` of `s` both hold whitespace. */
  predicate SpacePair(s: string, i: int)
    requires 0 < i < |s|
  {
    IsSpace(s[i - 1]) && IsSpace(s[i])
  }

  /** Text that clean_text leaves as it is: only allowed characters, only
      plain single spaces, none at either end. */
  predicate Tidy(s: string)
  {
    AllAllowed(s) && PlainSpaces(s) && SingleSpaced(s) && Trimmed(s)
  }

  lemma {:induction false} CollapseSingleSpaced(s: string)
    requires PlainSpaces(s) && SingleSpaced(s)
    ensures CollapseWhitespace(s) == s
    decreases |s|
  {
    if s != [] {
      var t := s[1..];
      assert PlainSpaces(t) && SingleSpaced(t) by {
        forall i | 0 < i < |t| ensures !SpacePair(t, i) {
          assert t[i - 1] == s[i] && t[i] == s[i + 1];
          assert !SpacePair(s, i + 1);
        }
      }
      if IsSpace(s[0]) {
        assert s[0] == ' ';
        assert t == [] || !IsSpace(t[0]) by {
          if t != [] {
            assert !SpacePair(s, 1);
          }
        }
        assert DropSpaces(t) == t;
      }
      CollapseSingleSpaced(t);
      assert s == [s[0]] + t;
    }
  }

  lemma {:induction false} RemoveAllAllowed(s: string)
    requires AllAllowed(s)
    ensures RemoveDisallowed(s) == s
  {
    if s != [] {
      assert s[0] in s;
      assert forall c :: c in s[1..] ==> c in s;
      RemoveAllAllowed(s[1..]);
      assert s == [s[0]] + s[1..];
    }
  }

  /** clean_text leaves tidy text unchanged. */
  lemma CleanFixesTidy(s: string)
    requires Tidy(s)
    ensures Clean(s) == s
  {
    CollapseSingleSpaced(s);
    RemoveAllAllowed(s);
  }

  /** Cleaning twice is cleaning once, unless the first pass left two spaces
      side by side. */
  lemma CleanIdempotentWhenSingleSpaced(text: string)
    requires SingleSpaced(Clean(text))
    ensures Clean(Clean(text)) == Clean(text)
  {
    CleanShape(text);
    CleanFixesTidy(Clean(text));
  }

  /** Cleaning twice is cleaning once exactly when the first pass left no
      two spaces side by side. */
  lemma CleanIdempotentIff(text: string)
    ensures Clean(Clean(text)) == Clean(text) <==> SingleSpaced(Clean(text))
  {
    if SingleSpaced(Clean(text)) {
      CleanIdempotentWhenSingleSpaced(text);
    } else {
      CleanShape(text);
      CleanAllowedSingleSpaced(Clean(text));
    }
  }

  /** Cleaning text made only of allowed characters leaves no two spaces
      side by side. */
  lemma CleanAllowedSingleSpaced(y: string)
    requires AllAllowed(y)
    ensures SingleSpaced(Clean(y))
  {
    var c := CollapseWhitespace(y);
    CollapseShape(y);
    assert AllAllowed(c) by {
      forall ch | ch in c ensures Allowed(ch) {
        if ch != ' ' {
          assert ch in y;
        }
      }
    }
    RemoveAllAllowed(c);
    StripSingleSpaced(c);
  }

  /** Stripping keeps text single-spaced. */
  lemma StripSingleSpaced(s: string)
    requires SingleSpaced(s)
    ensures SingleSpaced(Strip(s))
  {
    var t := DropSpaces(s);
    var r := DropTrailingSpaces(t);
    SliceSingleSpaced(s, |s| - |t|, |s|);
    assert s[|s| - |t|..|s|] == t;
    SliceSingleSpaced(t, 0, |r|);
    assert t[0..|r|] == r;
  }

  /** A slice of single-spaced text is single-spaced. */
  lemma SliceSingleSpaced(s: string, i: int, j: int)
    requires SingleSpaced(s) && 0 <= i <= j <= |s|
    ensures SingleSpaced(s[i..j])
  {
    var r := s[i..j];
    forall k | 0 < k < |r| ensures !SpacePair(r, k) {
      assert r[k - 1] == s[i + k - 1] && r[k] == s[i + k];
      assert !SpacePair(s, i + k);
    }
  }

  lemma WordCharNotSpace(c: char)
    requires IsWordChar(c)
    ensures !IsSpace(c)
  {
  }

  /** clean_text is not idempotent: deleting a character can leave two
      spaces side by side, because whitespace is collapsed first. With `a`
      and `b` word characters, `"a @ b"` cleans to `"a  b"`, which cleans to
      `"a b"`. */
  lemma CleanNotIdempotent(a: char, b: char)
    requires IsWordChar(a) && IsWordChar(b)
    ensures Clean([a, ' ', '@', ' ', b]) == [a, ' ', ' ', b]
    ensures Clean([a, ' ', ' ', b]) == [a, ' ', b]
  {
    CleanOfAtExample(a, b);
    CleanOfDoubleSpaceExample(a, b);
  }

  lemma CleanOfAtExample(a: char, b: char)
    requires IsWordChar(a) && IsWordChar(b)
    ensures Clean([a, ' ', '@', ' ', b]) == [a, ' ', ' ', b]
  {
    CollapseAtExample(a, b);
    RemoveAtExample(a, b);
    StripDoubleSpaceExample(a, b);
  }

  lemma CollapseAtExample(a: char, b: char)
    requires IsWordChar(a) && IsWordChar(b)
    ensures CollapseWhitespace([a, ' ', '@', ' ', b]) == [a, ' ', '@', ' ', b]
  {
    var s := [a, ' ', '@', ' ', b];
    assert PlainSpaces(s) by {
      forall c | c in s && IsSpace(c) ensures c == ' ' {
        assert c == a || c == ' ' || c == '@' || c == b;
      }
    }
    assert SingleSpaced(s);
    CollapseSingleSpaced(s);
  }

  lemma RemoveAtExample(a: char, b: char)
    requires IsWordChar(a) && IsWordChar(b)
    ensures RemoveDisallowed([a, ' ', '@', ' ', b]) == [a, ' ', ' ', b]
  {
    var s := [a, ' ', '@', ' ', b];
    assert !Allowed('@');
    assert RemoveDisallowed(s[4..]) == [b];
    assert RemoveDisallowed(s[3..]) == [' ', b];
    assert RemoveDisallowed(s[2..]) == [' ', b];
    assert RemoveDisallowed(s[1..]) == [' ', ' ', b];
  }

  lemma StripDoubleSpaceExample(a: char, b: char)
    requires IsWordChar(a) && IsWordChar(b)
    ensures Strip([a, ' ', ' ', b]) == [a, ' ', ' ', b]
  {
    var s := [a, ' ', ' ', b];
    assert Trimmed(s) by {
      WordCharNotSpace(a);
      WordCharNotSpace(b);
      assert s[0] == a && s[|s| - 1] == b;
    }
  }

  lemma CleanOfDoubleSpaceExample(a: char, b: char)
    requires IsWordChar(a) && IsWordChar(b)
    ensures Clean([a, ' ', ' ', b]) == [a, ' ', b]
  {
    CollapseDoubleSpace(a, b);
    RemoveSingleSpaceExample(a, b);
    StripSingleSpaceExample(a, b);
  }

  lemma RemoveSingleSpaceExample(a: char, b: char)
    requires IsWordChar(a) && IsWordChar(b)
    ensures RemoveDisallowed([a, ' ', b]) == [a, ' ', b]
  {
    var s := [a, ' ', b];
    assert AllAllowed(s) by {
      forall c | c in s ensures Allowed(c) {
        assert c == a || c == ' ' || c == b;
      }
    }
    RemoveAllAllowed(s);
  }

  lemma StripSingleSpaceExample(a: char, b: char)
    requires IsWordChar(a) && IsWordChar(b)
    ensures Strip([a, ' ', b]) == [a, ' ', b]
  {
    var s := [a, ' ', b];
    assert Trimmed(s) by {
      WordCharNotSpace(a);
      WordCharNotSpace(b);
      assert s[0] == a && s[|s| - 1] == b;
    }
  }

  /** Two spaces between two other characters collapse into one. */
  lemma CollapseDoubleSpace(x: char, y: char)
    requires !IsSpace(x) && !IsSpace(y)
    ensures CollapseWhitespace([x, ' ', ' ', y]) == [x, ' ', y]
  {
    var s := [x, ' ', ' ', y];
    assert s[0] == x;
    CollapseHeadWord(s);
    CollapseTwoSpacesBefore(s[1..]);
  }

  /** Two spaces and then a character that is not whitespace. */
  lemma CollapseTwoSpacesBefore(t: string)
    requires |t| == 3 && t[0] == ' ' && t[1] == ' ' && !IsSpace(t[2])
    ensures CollapseWhitespace(t) == [' ', t[2]]
  {
    CollapseHeadSpace(t);
    var u := t[1..];
    assert DropSpaces(u) == u[1..];
    CollapseNoSpace(u[1..]);
  }
}
