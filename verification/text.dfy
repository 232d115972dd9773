/**
  Whitespace handling shared by the normaliser and the validators: the
  JavaScript `\s` class, `String.prototype.trim`, `.replace(/\s+/g, ' ')`
  and `.replace(/\s+/g, '')`.
*/
module Text {

  /** JavaScript's `\s` (WhiteSpace and LineTerminator); `trim` strips the same set. */
  predicate IsSpace(c: char) {
    || c == '\t' || c == '\n' || c == '\U{000B}' || c == '\U{000C}' || c == '\r' || c == ' '
    || c == '\U{00A0}' || c == '\U{1680}' || ('\U{2000}' <= c <= '\U{200A}')
    || c == '\U{2028}' || c == '\U{2029}' || c == '\U{202F}' || c == '\U{205F}'
    || c == '\U{3000}' || c == '\U{FEFF}'
  }

  predicate NoSpace(s: string) {
    forall i :: 0 <= i < |s| ==> !IsSpace(s[i])
  }

  predicate AllSpace(s: string) {
    forall i :: 0 <= i < |s| ==> IsSpace(s[i])
  }

  /** No whitespace at either end. */
  predicate Trimmed(s: string) {
    s == [] || (!IsSpace(s[0]) && !IsSpace(s[|s| - 1]))
  }

  /** Every whitespace character is a plain ' ' and is not followed by more whitespace. */
  predicate SingleSpaced(s: string) {
    forall i :: 0 <= i < |s| && IsSpace(s[i]) ==> s[i] == ' ' && (i + 1 < |s| ==> !IsSpace(s[i + 1]))
  }

  /** The shape of a normalised search string. */
  predicate Squashed(s: string) {
    Trimmed(s) && SingleSpaced(s)
  }

  /** Length of the whitespace run at the start of `s`. */
  function LeadingSpaces(s: string): (n: nat)
    ensures n <= |s|
    ensures forall i :: 0 <= i < n ==> IsSpace(s[i])
    ensures n < |s| ==> !IsSpace(s[n])
  {
    if s == [] || !IsSpace(s[0]) then 0 else 1 + LeadingSpaces(s[1..])
  }

  /** Length of the whitespace run at the end of `s`. */
  function TrailingSpaces(s: string): (n: nat)
    ensures n <= |s|
    ensures forall i :: |s| - n <= i < |s| ==> IsSpace(s[i])
    ensures n < |s| ==> !IsSpace(s[|s| - 1 - n])
  {
    if s == [] || !IsSpace(s[|s| - 1]) then 0 else 1 + TrailingSpaces(s[..|s| - 1])
  }

  /** `String.prototype.trim`. */
  function Trim(s: string): string {
    var t := s[LeadingSpaces(s)..];
    t[..|t| - TrailingSpaces(t)]
  }

  /**
    Trimming leaves no whitespace at either end, removes nothing but
    whitespace, and leaves an already trimmed string alone.
  */
  lemma TrimSpec(s: string)
    ensures Trimmed(Trim(s))
    ensures StripSpaces(Trim(s)) == StripSpaces(s)
    ensures Trimmed(s) ==> Trim(s) == s
    ensures CutFrom(Trim(s), s)
  {
    TrimEnds(s);
    TrimKeepsText(s);
    TrimIsCut(s);
  }

  /** `r` is `s` with a whitespace prefix and a whitespace suffix cut off, and nothing else. */
  ghost predicate CutFrom(r: string, s: string) {
    exists i, j :: 0 <= i <= j <= |s| && r == s[i..j] && AllSpace(s[..i]) && AllSpace(s[j..])
  }

  lemma TrimIsCut(s: string)
    ensures CutFrom(Trim(s), s)
  {
    var i := LeadingSpaces(s);
    var t := s[i..];
    var j := i + |t| - TrailingSpaces(t);
    assert Trim(s) == s[i..j];
    assert AllSpace(s[..i]);
    assert AllSpace(s[j..]) by {
      forall k | 0 <= k < |s[j..]| ensures IsSpace(s[j..][k]) {
        assert s[j..][k] == t[|t| - TrailingSpaces(t) + k];
      }
    }
  }

  /**
    Trimming is the only way to cut whitespace off the ends of a string and
    reach a string with no whitespace at either end.
  */
  lemma TrimUnique(r: string, s: string)
    requires Trimmed(r) && CutFrom(r, s)
    ensures r == Trim(s)
  {
    var i, j :| 0 <= i <= j <= |s| && r == s[i..j] && AllSpace(s[..i]) && AllSpace(s[j..]);
    TrimUniqueAt(r, s, i, j);
  }

  lemma TrimUniqueAt(r: string, s: string, i: nat, j: nat)
    requires i <= j <= |s| && r == s[i..j] && AllSpace(s[..i]) && AllSpace(s[j..])
    requires Trimmed(r)
    ensures r == Trim(s)
  {
    if i == j {
      TrimAllSpace(s, i);
    } else {
      assert r[0] == s[i] && r[|r| - 1] == s[j - 1];
      TrimCut(s, i, j);
    }
  }

  /** A string that is whitespace on both sides of a point trims to "". */
  lemma TrimAllSpace(s: string, i: nat)
    requires i <= |s| && AllSpace(s[..i]) && AllSpace(s[i..])
    ensures Trim(s) == []
  {
    assert AllSpace(s) by {
      assert s == s[..i] + s[i..];
    }
    LeadingIs(s, |s|);
  }

  /** A slice starting and ending with non-whitespace, with only whitespace around it, is the trimmed string. */
  lemma TrimCut(s: string, i: nat, j: nat)
    requires i < j <= |s| && AllSpace(s[..i]) && AllSpace(s[j..])
    requires !IsSpace(s[i]) && !IsSpace(s[j - 1])
    ensures Trim(s) == s[i..j]
  {
    LeadingIs(s, i);
    var t := s[i..];
    assert t[j - i - 1] == s[j - 1];
    assert t[j - i..] == s[j..];
    TrailingIs(t, j - i);
  }

  /** A whitespace run of length `n` ending the string or a non-whitespace character is the leading run. */
  lemma {:induction false} LeadingIs(s: string, n: nat)
    requires n <= |s| && AllSpace(s[..n])
    requires n < |s| ==> !IsSpace(s[n])
    ensures LeadingSpaces(s) == n
    decreases n
  {
    if n > 0 {
      assert IsSpace(s[0]) by {
        assert s[0] == s[..n][0];
      }
      assert s[1..][..n - 1] == s[..n][1..];
      LeadingIs(s[1..], n - 1);
    }
  }

  /** A whitespace tail after position `n`, preceded by a non-whitespace character, is the trailing run. */
  lemma {:induction false} TrailingIs(t: string, n: nat)
    requires 0 < n <= |t| && !IsSpace(t[n - 1]) && AllSpace(t[n..])
    ensures TrailingSpaces(t) == |t| - n
    decreases |t|
  {
    if n < |t| {
      var u := t[..|t| - 1];
      assert IsSpace(t[|t| - 1]) by {
        assert t[|t| - 1] == t[n..][|t| - 1 - n];
      }
      assert u[n..] == t[n..][..|t| - 1 - n];
      TrailingIs(u, n);
    }
  }

  lemma TrimEnds(s: string)
    ensures Trimmed(Trim(s))
  {
    var t := s[LeadingSpaces(s)..];
    var r := t[..|t| - TrailingSpaces(t)];
    if r != [] {
      assert r[0] == t[0];
      assert r[|r| - 1] == t[|t| - 1 - TrailingSpaces(t)];
    }
  }

  /** Dropping the leading whitespace run loses no text. */
  lemma {:induction false} StripDropLeading(s: string)
    ensures StripSpaces(s[LeadingSpaces(s)..]) == StripSpaces(s)
  {
    if s != [] && IsSpace(s[0]) {
      StripDropLeading(s[1..]);
      assert s[LeadingSpaces(s)..] == s[1..][LeadingSpaces(s[1..])..];
    }
  }

  /** Dropping the trailing whitespace run loses no text. */
  lemma {:induction false} StripDropTrailing(t: string)
    ensures StripSpaces(t[..|t| - TrailingSpaces(t)]) == StripSpaces(t)
    decreases |t|
  {
    if t != [] && IsSpace(t[|t| - 1]) {
      var u := t[..|t| - 1];
      StripDropTrailing(u);
      TrailingStep(t);
      StripSpacesSnocSpace(t);
    } else {
      assert t[..|t|] == t;
    }
  }

  /** A string ending in whitespace has the trailing run of its front, one longer, at the same cut. */
  lemma TrailingStep(t: string)
    requires t != [] && IsSpace(t[|t| - 1])
    ensures var u := t[..|t| - 1];
            t[..|t| - TrailingSpaces(t)] == u[..|u| - TrailingSpaces(u)]
  {
    var u := t[..|t| - 1];
    assert TrailingSpaces(t) == 1 + TrailingSpaces(u);
  }

  /** Dropping a final whitespace character loses no text. */
  lemma StripSpacesSnocSpace(t: string)
    requires t != [] && IsSpace(t[|t| - 1])
    ensures StripSpaces(t[..|t| - 1]) == StripSpaces(t)
  {
    var u, c := t[..|t| - 1], t[|t| - 1];
    assert StripSpaces([c]) == [] by { assert [c][1..] == []; }
    assert t == u + [c];
    StripSpacesAppend(u, [c]);
  }

  lemma TrimKeepsText(s: string)
    ensures StripSpaces(Trim(s)) == StripSpaces(s)
  {
    var t := s[LeadingSpaces(s)..];
    StripDropLeading(s);
    StripDropTrailing(t);
    assert Trim(s) == t[..|t| - TrailingSpaces(t)];
  }

  /** `.replace(/\s+/g, '')`: every whitespace character removed. */
  function StripSpaces(s: string): (r: string)
    ensures NoSpace(r)
    ensures |r| <= |s|
  {
    if s == [] then []
    else if IsSpace(s[0]) then StripSpaces(s[1..])
    else [s[0]] + StripSpaces(s[1..])
  }

  /** Text without whitespace is its own whitespace-free form. */
  lemma {:induction false} StripSpacesOfNoSpace(s: string)
    requires NoSpace(s)
    ensures StripSpaces(s) == s
  {
    if s != [] {
      StripSpacesOfNoSpace(s[1..]);
    }
  }

  lemma StripSpacesAppend(a: string, b: string)
    ensures StripSpaces(a + b) == StripSpaces(a) + StripSpaces(b)
  {
    if a != [] {
      assert (a + b)[0] == a[0];
      assert (a + b)[1..] == a[1..] + b;
      StripSpacesAppend(a[1..], b);
    } else {
      assert a + b == b;
    }
  }

  /**
    `.replace(/\s+/g, ' ')`: each maximal whitespace run becomes one ' '.
  */
  function CollapseSpaces(s: string): (r: string)
    decreases |s|
  {
    if s == [] then []
    else if IsSpace(s[0]) then [' '] + CollapseSpaces(s[1..][LeadingSpaces(s[1..])..])
    else [s[0]] + CollapseSpaces(s[1..])
  }

  /** Collapsing removes and adds nothing but whitespace. */
  lemma {:induction false} CollapseKeepsText(s: string)
    ensures StripSpaces(CollapseSpaces(s)) == StripSpaces(s)
    decreases |s|
  {
    if s != [] {
      var c := CollapseSpaces(s);
      if IsSpace(s[0]) {
        var rest := s[1..][LeadingSpaces(s[1..])..];
        CollapseKeepsText(rest);
        StripDropLeading(s[1..]);
        assert c[1..] == CollapseSpaces(rest);
      } else {
        CollapseKeepsText(s[1..]);
        assert c[1..] == CollapseSpaces(s[1..]);
      }
    }
  }

  /**
    Collapsing leaves every whitespace character single and plain, and keeps
    whether each end of the string is whitespace.
  */
  lemma CollapseShape(s: string)
    ensures SingleSpaced(CollapseSpaces(s))
    ensures s == [] <==> CollapseSpaces(s) == []
    ensures s != [] ==> (IsSpace(CollapseSpaces(s)[0]) <==> IsSpace(s[0]))
    ensures s != [] ==> (IsSpace(CollapseSpaces(s)[|CollapseSpaces(s)| - 1]) <==> IsSpace(s[|s| - 1]))
  {
    CollapseSingle(s);
    if s != [] {
      CollapseLast(s);
    }
  }

  /** Prepending one character keeps a string single-spaced when that character is a lone ' '. */
  lemma SingleSpacedCons(c: char, tail: string)
    requires SingleSpaced(tail)
    requires IsSpace(c) ==> c == ' ' && (tail != [] ==> !IsSpace(tail[0]))
    ensures SingleSpaced([c] + tail)
  {
    var r := [c] + tail;
    forall i | 0 <= i < |r| && IsSpace(r[i]) ensures r[i] == ' ' && (i + 1 < |r| ==> !IsSpace(r[i + 1])) {
      if i > 0 {
        assert r[i] == tail[i - 1];
        if i + 1 < |r| {
          assert r[i + 1] == tail[i];
        }
      }
    }
  }

  lemma {:induction false} CollapseSingle(s: string)
    ensures SingleSpaced(CollapseSpaces(s))
    decreases |s|
  {
    if s != [] {
      if IsSpace(s[0]) {
        var rest := s[1..][LeadingSpaces(s[1..])..];
        CollapseSingle(rest);
        if rest != [] {
          assert !IsSpace(rest[0]);
        }
        SingleSpacedCons(' ', CollapseSpaces(rest));
      } else {
        CollapseSingle(s[1..]);
        SingleSpacedCons(s[0], CollapseSpaces(s[1..]));
      }
    }
  }

  /** A non-empty string collapses to a non-empty one ending in whitespace exactly when it does. */
  lemma {:induction false} CollapseLast(s: string)
    requires s != []
    ensures CollapseSpaces(s) != []
    ensures IsSpace(CollapseSpaces(s)[|CollapseSpaces(s)| - 1]) <==> IsSpace(s[|s| - 1])
    decreases |s|
  {
    var c := CollapseSpaces(s);
    if IsSpace(s[0]) {
      var rest := s[1..][LeadingSpaces(s[1..])..];
      if rest == [] {
        assert c == [' '] + CollapseSpaces(rest);
        if |s| > 1 {
          assert s[|s| - 1] == s[1..][|s| - 2];
        }
      } else {
        CollapseLast(rest);
        assert c[|c| - 1] == CollapseSpaces(rest)[|CollapseSpaces(rest)| - 1];
        assert s[|s| - 1] == rest[|rest| - 1];
      }
    } else if |s| > 1 {
      CollapseLast(s[1..]);
      assert c == [s[0]] + CollapseSpaces(s[1..]);
      assert c[|c| - 1] == CollapseSpaces(s[1..])[|CollapseSpaces(s[1..])| - 1];
    } else {
      assert c == [s[0]] + CollapseSpaces(s[1..]);
    }
  }

  /** A single-spaced string is its own collapse. */
  lemma {:induction false} CollapseFixesSingleSpaced(s: string)
    requires SingleSpaced(s)
    ensures CollapseSpaces(s) == s
    decreases |s|
  {
    if s != [] {
      assert SingleSpaced(s[1..]) by {
        forall i | 0 <= i < |s[1..]| && IsSpace(s[1..][i])
          ensures s[1..][i] == ' ' && (i + 1 < |s[1..]| ==> !IsSpace(s[1..][i + 1]))
        {
          assert s[1..][i] == s[i + 1];
        }
      }
      if IsSpace(s[0]) && |s| > 1 {
        assert !IsSpace(s[1]);
      }
      CollapseFixesSingleSpaced(s[1..]);
    }
  }

  /** `trim()` followed by `.replace(/\s+/g, ' ')`. */
  function Squash(s: string): (r: string)
    ensures Squashed(r)
    ensures StripSpaces(r) == StripSpaces(s)
    ensures Words(r) == Words(s)
    ensures Squashed(s) ==> r == s
  {
    TrimSpec(s);
    TrimKeepsWords(s);
    CollapseKeepsWords(Trim(s));
    CollapseKeepsText(Trim(s));
    CollapseShape(Trim(s));
    if Squashed(s) then CollapseFixesSingleSpaced(s); CollapseSpaces(Trim(s))
    else CollapseSpaces(Trim(s))
  }

  /** Trimming and collapsing whitespace is idempotent. */
  lemma SquashIdempotent(s: string)
    ensures Squash(Squash(s)) == Squash(s)
  {
  }

  /** Trimming is idempotent. */
  lemma TrimIdempotent(s: string)
    ensures Trim(Trim(s)) == Trim(s)
  {
    TrimSpec(s);
    TrimSpec(Trim(s));
  }

  /** A string holding a non-whitespace character keeps one after whitespace removal. */
  lemma StripSpacesNonEmpty(s: string, i: nat)
    requires i < |s| && !IsSpace(s[i])
    ensures StripSpaces(s) != []
  {
    if IsSpace(s[0]) {
      StripSpacesNonEmpty(s[1..], i - 1);
    }
  }

  // ---------------------------------------------------------------------------
  // words: the maximal runs of non-whitespace characters

  /** Length of the non-whitespace run at the start of `s`. */
  function WordLength(s: string): (n: nat)
    ensures n <= |s|
    ensures forall i :: 0 <= i < n ==> !IsSpace(s[i])
    ensures n < |s| ==> IsSpace(s[n])
  {
    if s == [] || IsSpace(s[0]) then 0 else 1 + WordLength(s[1..])
  }

  /** The words of `s`, in order: its maximal runs of non-whitespace characters. */
  function Words(s: string): (ws: seq<string>)
    decreases |s|
  {
    if s == [] then []
    else if IsSpace(s[0]) then Words(s[1..])
    else [s[..WordLength(s)]] + Words(s[WordLength(s)..])
  }

  /** The words joined by single ' ' characters. */
  function Unwords(ws: seq<string>): string {
    if ws == [] then []
    else if |ws| == 1 then ws[0]
    else ws[0] + [' '] + Unwords(ws[1..])
  }

  /** Whitespace only has no words. */
  lemma {:induction false} WordsOfSpaces(s: string)
    requires AllSpace(s)
    ensures Words(s) == []
  {
    if s != [] {
      WordsOfSpaces(s[1..]);
    }
  }

  /** A string starting with a non-whitespace character has a first word. */
  lemma WordsStart(s: string)
    requires s != [] && !IsSpace(s[0])
    ensures Words(s) != [] && Words(s)[0] == s[..WordLength(s)]
  {
  }

  /**
    Putting a non-whitespace character in front either starts a new word
    (when the rest is empty or starts with whitespace) or extends the first word.
  */
  lemma WordsCons(c: char, x: string)
    requires !IsSpace(c)
    ensures x == [] || IsSpace(x[0]) ==> Words([c] + x) == [[c]] + Words(x)
    ensures x != [] && !IsSpace(x[0]) ==> Words(x) != [] && Words([c] + x) == [[c] + Words(x)[0]] + Words(x)[1..]
  {
    var s := [c] + x;
    assert s[1..] == x;
    if x == [] || IsSpace(x[0]) {
      assert WordLength(s) == 1;
      assert s[..1] == [c];
    } else {
      var m := WordLength(x);
      assert WordLength(s) == 1 + m;
      assert s[..1 + m] == [c] + x[..m];
      assert s[1 + m..] == x[m..];
    }
  }

  /**
    The words after a leading non-whitespace character depend only on the
    words of the rest and on whether the rest starts a new word.
  */
  lemma WordsConsCongruent(c: char, x: string, y: string)
    requires !IsSpace(c)
    requires Words(x) == Words(y)
    requires (x == [] || IsSpace(x[0])) <==> (y == [] || IsSpace(y[0]))
    ensures Words([c] + x) == Words([c] + y)
  {
    WordsCons(c, x);
    WordsCons(c, y);
  }

  /** Dropping the leading whitespace run keeps the words. */
  lemma {:induction false} WordsDropLeading(s: string)
    ensures Words(s[LeadingSpaces(s)..]) == Words(s)
  {
    if s != [] && IsSpace(s[0]) {
      WordsDropLeading(s[1..]);
      assert s[LeadingSpaces(s)..] == s[1..][LeadingSpaces(s[1..])..];
    }
  }

  /** Cutting off a tail of whitespace keeps the words. */
  lemma {:induction false} WordsKeepPrefix(t: string, n: nat)
    requires n <= |t|
    requires forall i :: n <= i < |t| ==> IsSpace(t[i])
    ensures Words(t[..n]) == Words(t)
    decreases |t|
  {
    if n == 0 {
      assert AllSpace(t);
      WordsOfSpaces(t);
    } else {
      var u := t[1..];
      forall i | n - 1 <= i < |u| ensures IsSpace(u[i]) {
        assert u[i] == t[i + 1];
      }
      WordsKeepPrefix(u, n - 1);
      assert t[..n] == [t[0]] + u[..n - 1];
      assert t == [t[0]] + u;
      if !IsSpace(t[0]) {
        if n == 1 && u != [] {
          assert IsSpace(u[0]);
        }
        WordsConsCongruent(t[0], u[..n - 1], u);
      }
    }
  }

  /** Trimming keeps the words. */
  lemma TrimKeepsWords(s: string)
    ensures Words(Trim(s)) == Words(s)
  {
    var t := s[LeadingSpaces(s)..];
    WordsDropLeading(s);
    WordsKeepPrefix(t, |t| - TrailingSpaces(t));
  }

  /** Collapsing whitespace runs keeps the words. */
  lemma {:induction false} CollapseKeepsWords(s: string)
    ensures Words(CollapseSpaces(s)) == Words(s)
    decreases |s|
  {
    if s != [] {
      var c := CollapseSpaces(s);
      if IsSpace(s[0]) {
        var rest := s[1..][LeadingSpaces(s[1..])..];
        CollapseKeepsWords(rest);
        WordsDropLeading(s[1..]);
        assert c[1..] == CollapseSpaces(rest);
      } else {
        var x := s[1..];
        CollapseKeepsWords(x);
        CollapseShape(x);
        assert c == [s[0]] + CollapseSpaces(x);
        assert s == [s[0]] + x;
        WordsConsCongruent(s[0], CollapseSpaces(x), x);
      }
    }
  }

  /** A string with no whitespace at the ends and single ' ' separators is its words joined by ' '. */
  lemma {:induction false} SquashedIsUnwords(r: string)
    requires Squashed(r)
    ensures r == Unwords(Words(r))
    decreases |r|
  {
    if r != [] {
      var m := WordLength(r);
      var w := r[..m];
      if m == |r| {
        assert r[m..] == [];
        assert Words(r) == [w] + Words([]);
      } else {
        var rest := r[m + 1..];
        assert r[m] == ' ' && m + 1 < |r| && !IsSpace(r[m + 1]);
        assert Words(r) == [w] + Words(rest) by {
          assert r[m..][1..] == rest;
        }
        assert Squashed(rest) by {
          SquashedSuffix(r, m + 1);
        }
        SquashedIsUnwords(rest);
        WordsStart(rest);
        UnwordsCons(w, Words(rest));
        SplitAt(r, m);
      }
    }
  }

  lemma SplitAt(s: string, k: nat)
    requires k < |s|
    ensures s == s[..k] + [s[k]] + s[k + 1..]
  {
  }

  /** Joining a word in front of non-empty words adds it with one separating ' '. */
  lemma UnwordsCons(w: string, ws: seq<string>)
    requires ws != []
    ensures Unwords([w] + ws) == w + [' '] + Unwords(ws)
  {
    assert ([w] + ws)[1..] == ws;
  }

  /** A suffix of a single-spaced string that starts with a non-whitespace character is squashed. */
  lemma SquashedSuffix(r: string, k: nat)
    requires Squashed(r) && k < |r| && !IsSpace(r[k])
    ensures Squashed(r[k..])
  {
    var rest := r[k..];
    forall i | 0 <= i < |rest| && IsSpace(rest[i])
      ensures rest[i] == ' ' && (i + 1 < |rest| ==> !IsSpace(rest[i + 1]))
    {
      assert rest[i] == r[k + i];
      if i + 1 < |rest| {
        assert rest[i + 1] == r[k + i + 1];
      }
    }
    assert rest[|rest| - 1] == r[|r| - 1];
  }

  /** Search squashing is the words of the text joined by single spaces. */
  lemma SquashIsUnwords(s: string)
    ensures Squash(s) == Unwords(Words(s))
  {
    SquashedIsUnwords(Squash(s));
  }
}
