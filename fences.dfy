/** The fence remover of server/routes.ts line 113, written as a scanner:
    `s.replace(/```(?:json)?\n?([\s\S]*?)```/g, "$1")`.

    The regular expression is matched left to right. At the leftmost "```"
    it takes an optional `json` tag and an optional newline, greedily, then
    the shortest interior that is followed by "```"; the whole match is
    replaced by the interior and matching resumes after the closing fence.
    The tag and the newline hold no backtick, so taking them or not never
    changes which "```" closes the match; and once the leftmost "```" has no
    closer, no later "```" has one either, so the rest is left as it is. */
module Fences {

  import opened Wrappers

  /** "```" starts at index `i` of `s`. */
  predicate FenceAt(s: string, i: int) {
    0 <= i && i + 3 <= |s| && s[i] == '`' && s[i + 1] == '`' && s[i + 2] == '`'
  }

  ghost predicate NoFence(s: string) {
    forall i :: !FenceAt(s, i)
  }

  /** No "```" of `s` is followed, three or more characters later, by
      another: nothing in `s` can be matched. */
  ghost predicate PairFree(s: string) {
    forall a, b :: FenceAt(s, a) && FenceAt(s, b) ==> b < a + 3
  }

  /** The first "```" at or after `from`. */
  function NextFence(s: string, from: nat): (r: Option<nat>)
    ensures r.Some? ==> from <= r.value && FenceAt(s, r.value)
    ensures r.Some? ==> forall m :: from <= m < r.value ==> !FenceAt(s, m)
    ensures r.None? ==> forall m :: from <= m ==> !FenceAt(s, m)
    decreases |s| - from
  {
    if from + 3 > |s| then None
    else if FenceAt(s, from) then Some(from)
    else NextFence(s, from + 1)
  }

  /** Where the interior starts when an opening fence ends at `p`: after
      `(?:json)?\n?`, each part taken greedily when present (which text is
      skipped is `SkipTagSkips`). The skipped characters hold no backtick. */
  function SkipTag(s: string, p: nat): (k: nat)
    requires p <= |s|
    ensures p <= k <= |s| && k <= p + 5
    ensures forall m :: p <= m < k ==> s[m] != '`'
  {
    var q := if p + 4 <= |s| && s[p..p + 4] == "json" then p + 4 else p;
    assert q == p + 4 ==> s[p] == 'j' && s[p + 1] == 's' && s[p + 2] == 'o' && s[p + 3] == 'n' by {
      if q == p + 4 {
        assert s[p..p + 4][0] == s[p] && s[p..p + 4][1] == s[p + 1];
        assert s[p..p + 4][2] == s[p + 2] && s[p..p + 4][3] == s[p + 3];
      }
    }
    if q < |s| && s[q] == '\n' then q + 1 else q
  }

  /** The text `SkipTag` passes over is one of "", "\n", "json" and
      "json\n", and it is the longest of them that `s` continues with at
      `p`: the greedy `(?:json)?\n?`. */
  lemma SkipTagSkips(s: string, p: nat)
    requires p <= |s|
    ensures var k := SkipTag(s, p);
      s[p..k] == "" || s[p..k] == "\n" || s[p..k] == "json" || s[p..k] == "json\n"
    ensures "json\n" <= s[p..] ==> SkipTag(s, p) == p + 5
    ensures "json" <= s[p..] ==> SkipTag(s, p) >= p + 4
    ensures "\n" <= s[p..] ==> SkipTag(s, p) == p + 1
  {
    var q := if p + 4 <= |s| && s[p..p + 4] == "json" then p + 4 else p;
    var k := SkipTag(s, p);
    assert "json" <= s[p..] ==> q == p + 4 by {
      if "json" <= s[p..] {
        assert s[p..][..4] == s[p..p + 4];
      }
    }
    assert "\n" <= s[p..] ==> q == p by {
      if "\n" <= s[p..] {
        assert s[p..][0] == s[p];
      }
    }
    assert "json\n" <= s[p..] ==> k == p + 5 by {
      if "json\n" <= s[p..] {
        assert s[p..][..4] == s[p..p + 4];
        assert s[p..][4] == s[p + 4];
      }
    }
    assert k == q + 1 ==> s[p..k] == s[p..q] + "\n";
  }

  /** The global replace: every match replaced by its interior. */
  function StripFences(s: string): (r: string)
    ensures |r| <= |s|
    decreases |s|
  {
    match NextFence(s, 0)
    case None => s
    case Some(i) =>
      var k := SkipTag(s, i + 3);
      match NextFence(s, k)
      case None => s
      case Some(j) => s[..i] + s[k..j] + StripFences(s[j + 3..])
  }

  /** The search for a closer may start right after the opener: the tag
      characters cannot begin a fence. */
  lemma CloserSearch(s: string, i: nat)
    requires i + 3 <= |s|
    ensures NextFence(s, SkipTag(s, i + 3)) == NextFence(s, i + 3)
  {
    var k := SkipTag(s, i + 3);
    assert forall m :: i + 3 <= m < k ==> !FenceAt(s, m);
    match NextFence(s, i + 3)
    case None =>
    case Some(x) =>
      assert x >= k;
      NextFenceAt(s, k, x);
  }

  /** `NextFence` is determined by its contract. */
  lemma NextFenceAt(s: string, from: nat, x: nat)
    requires from <= x && FenceAt(s, x)
    requires forall m :: from <= m < x ==> !FenceAt(s, m)
    ensures NextFence(s, from) == Some(x)
  {
  }

  /** A string without "```" is left as it is. */
  lemma NoFenceUnchanged(s: string)
    requires NoFence(s)
    ensures StripFences(s) == s
  {
  }

  /** The leftmost "```" opens a match that the nearest "```" starting three
      or more characters later closes; the match is replaced by its
      interior, minus an optional `json` tag and at most one newline, and
      matching resumes after the closer. */
  lemma FirstMatch(s: string, i: nat, j: nat)
    requires FenceAt(s, i) && forall m :: 0 <= m < i ==> !FenceAt(s, m)
    requires i + 3 <= j && FenceAt(s, j) && forall m :: i + 3 <= m < j ==> !FenceAt(s, m)
    ensures StripFences(s) == s[..i] + s[SkipTag(s, i + 3)..j] + StripFences(s[j + 3..])
  {
    var k := SkipTag(s, i + 3);
    assert NextFence(s, 0) == Some(i) by {
      NextFenceAt(s, 0, i);
    }
    assert NextFence(s, k) == Some(j) by {
      NextFenceAt(s, i + 3, j);
      CloserSearch(s, i);
    }
  }

  /** A leftmost "```" with no "```" three or more characters later stays,
      and so does everything else. */
  lemma UnpairedFenceStays(s: string, i: nat)
    requires FenceAt(s, i) && forall m :: 0 <= m < i ==> !FenceAt(s, m)
    requires forall m :: i + 3 <= m ==> !FenceAt(s, m)
    ensures StripFences(s) == s
  {
    NextFenceAt(s, 0, i);
    CloserSearch(s, i);
  }

  /** A piece that holds no "```" and does not end with a backtick: no fence
      can straddle its right end. */
  ghost predicate Safe(t: string) {
    NoFence(t) && (t == [] || t[|t| - 1] != '`')
  }

  lemma FenceInConcat(l: string, r: string, a: int)
    requires Safe(l)
    ensures FenceAt(l + r, a) <==> a >= |l| && FenceAt(r, a - |l|)
  {
    if 0 <= a < |l| {
      if a + 3 <= |l| {
        assert FenceAt(l + r, a) ==> FenceAt(l, a);
      } else {
        assert (l + r)[|l| - 1] == l[|l| - 1];
      }
    }
  }

  lemma SafeConcat(l: string, m: string)
    requires Safe(l) && Safe(m)
    ensures Safe(l + m)
  {
    forall a ensures !FenceAt(l + m, a) {
      FenceInConcat(l, m, a);
    }
  }

  lemma PairFreeConcat(l: string, r: string)
    requires Safe(l) && PairFree(r)
    ensures PairFree(l + r)
  {
    forall a, b | FenceAt(l + r, a) && FenceAt(l + r, b)
      ensures b < a + 3
    {
      FenceInConcat(l, r, a);
      FenceInConcat(l, r, b);
    }
  }

  /** The text between a position and the first "```" at or after it is a
      safe piece. */
  lemma SafeBeforeFence(s: string, lo: nat, hi: nat)
    requires lo <= hi && FenceAt(s, hi)
    requires forall m :: lo <= m < hi ==> !FenceAt(s, m)
    ensures Safe(s[lo..hi])
  {
    var t := s[lo..hi];
    forall a ensures !FenceAt(t, a) {
      assert FenceAt(t, a) ==> FenceAt(s, lo + a);
    }
    if hi > lo {
      assert t[|t| - 1] == s[hi - 1];
      assert s[hi - 1] == '`' ==> FenceAt(s, hi - 1);
    }
  }

  /** Nothing that the replace leaves can be matched again: one pass removes
      every pair. */
  lemma {:induction false} StripFencesPairFree(s: string)
    ensures PairFree(StripFences(s))
    decreases |s|
  {
    match NextFence(s, 0)
    case None =>
    case Some(i) =>
      var k := SkipTag(s, i + 3);
      match NextFence(s, k)
      case None =>
        assert StripFences(s) == s;
        OnlyOpenerPairFree(s, i, k);
      case Some(j) =>
        assert StripFences(s) == s[..i] + s[k..j] + StripFences(s[j + 3..]);
        SafeBeforeFence(s, 0, i);
        SafeBeforeFence(s, k, j);
        StripFencesPairFree(s[j + 3..]);
        SafePiecesPairFree(s[..i], s[k..j], StripFences(s[j + 3..]));
  }

  /** Two safe pieces in front of a pair-free rest leave nothing to match. */
  lemma SafePiecesPairFree(a: string, b: string, r: string)
    requires Safe(a) && Safe(b) && PairFree(r)
    ensures PairFree(a + b + r)
  {
    SafeConcat(a, b);
    PairFreeConcat(a + b, r);
  }

  /** A string whose only "```" lie within three characters of the first:
      the first opener has no closer, and nothing can be matched. */
  lemma OnlyOpenerPairFree(s: string, i: nat, k: nat)
    requires i + 3 <= k
    requires forall m :: 0 <= m < i ==> !FenceAt(s, m)
    requires forall m :: i + 3 <= m < k ==> !FenceAt(s, m)
    requires forall m :: k <= m ==> !FenceAt(s, m)
    ensures PairFree(s)
  {
    forall a, b | FenceAt(s, a) && FenceAt(s, b) ensures b < a + 3 {
      assert i <= a && b < i + 3;
    }
  }

  /** A string in which nothing can be matched is left as it is. */
  lemma PairFreeUnchanged(s: string)
    requires PairFree(s)
    ensures StripFences(s) == s
  {
    match NextFence(s, 0)
    case None =>
    case Some(i) =>
      var k := SkipTag(s, i + 3);
      forall m | k <= m ensures !FenceAt(s, m) {
        assert FenceAt(s, i);
      }
      assert NextFence(s, k).None?;
  }

  /** A string in which something can be matched gets shorter. */
  lemma MatchShortens(s: string)
    requires !PairFree(s)
    ensures |StripFences(s)| < |s|
  {
    var a, b :| FenceAt(s, a) && FenceAt(s, b) && b >= a + 3;
    var i := NextFence(s, 0).value;
    var k := SkipTag(s, i + 3);
    assert forall m :: i + 3 <= m < k ==> !FenceAt(s, m);
    assert NextFence(s, k).Some?;
  }

  /** The replace leaves a string unchanged exactly when nothing in it can
      be matched. */
  lemma StripFencesFixedIff(s: string)
    ensures StripFences(s) == s <==> PairFree(s)
  {
    if PairFree(s) {
      PairFreeUnchanged(s);
    } else {
      MatchShortens(s);
    }
  }

  /** Removing fences twice is removing them once. */
  lemma StripFencesIdempotent(s: string)
    ensures StripFences(StripFences(s)) == StripFences(s)
  {
    StripFencesPairFree(s);
    StripFencesFixedIff(StripFences(s));
  }

  /** Every slice of a string in which nothing can be matched is one too. */
  lemma PairFreeSlice(s: string, lo: nat, hi: nat)
    requires PairFree(s) && lo <= hi <= |s|
    ensures PairFree(s[lo..hi])
  {
    forall a, b | FenceAt(s[lo..hi], a) && FenceAt(s[lo..hi], b)
      ensures b < a + 3
    {
      assert FenceAt(s, lo + a) && FenceAt(s, lo + b);
    }
  }

  lemma NoFenceSlice(s: string, lo: nat, hi: nat)
    requires NoFence(s) && lo <= hi <= |s|
    ensures NoFence(s[lo..hi])
  {
    forall a ensures !FenceAt(s[lo..hi], a) {
      assert FenceAt(s[lo..hi], a) ==> FenceAt(s, lo + a);
    }
  }
}
