/** The list of Gemini models `sync` tries in turn: the requested model (or
    the configured one, or a default) followed by four fixed Flash models,
    with later duplicates removed. */
module ModelChain {

  const DefaultModel: string := "gemini-2.5-flash"

  /** The fixed fallback models, in the order they are tried. */
  const FixedModels: seq<string> :=
    ["gemini-2.5-flash", "gemini-2.0-flash-exp", "gemini-1.5-flash", "gemini-1.5-flash-8b"]

  predicate NoDuplicates(s: seq<string>) {
    forall i, j :: 0 <= i < j < |s| ==> s[i] != s[j]
  }

  /** JavaScript's `a || b` on strings: the empty string (and an absent
      option, written here as "") is falsy. */
  function OrElse(a: string, b: string): (r: string)
    ensures a != "" ==> r == a
    ensures a == "" ==> r == b
  {
    if a != "" then a else b
  }

  /** `options.model || config.model || 'gemini-2.5-flash'`. It is never
      empty, and it is the first non-empty one of the three. */
  function FirstCandidate(optionModel: string, configModel: string): (r: string)
    ensures r != ""
    ensures r == optionModel || r == configModel || r == DefaultModel
    ensures optionModel != "" ==> r == optionModel
    ensures optionModel == "" && configModel != "" ==> r == configModel
  {
    OrElse(optionModel, OrElse(configModel, DefaultModel))
  }

  /** `arr.indexOf(x)`: the first position holding `x`, or -1. */
  function IndexOf(xs: seq<string>, x: string): (r: int)
    ensures r == -1 <==> x !in xs
    ensures r >= 0 ==> r < |xs| && xs[r] == x && x !in xs[..r]
    decreases |xs|
  {
    if xs == [] then -1
    else if xs[0] == x then 0
    else
      var j := IndexOf(xs[1..], x);
      if j < 0 then -1
      else
        assert xs[..j + 1] == [xs[0]] + xs[1..][..j];
        j + 1
  }

  /** The first `k` elements of `xs` filtered by
      `(m, i, arr) => arr.indexOf(m) === i`. The survivors are exactly the
      distinct values among those elements, each once. */
  function KeepFirst(xs: seq<string>, k: nat): (r: seq<string>)
    requires k <= |xs|
    ensures forall y :: y in r <==> y in xs[..k]
    ensures NoDuplicates(r)
    ensures |r| <= k
    decreases k
  {
    if k == 0 then []
    else
      var prev := KeepFirst(xs, k - 1);
      assert xs[..k] == xs[..k - 1] + [xs[k - 1]];
      if IndexOf(xs, xs[k - 1]) == k - 1 then
        assert xs[k - 1] !in xs[..k - 1];
        prev + [xs[k - 1]]
      else
        assert xs[k - 1] in xs[..k - 1];
        prev
  }

  /** `xs.filter((m, i, arr) => arr.indexOf(m) === i)`. */
  function Dedup(xs: seq<string>): (r: seq<string>)
    ensures forall y :: y in r <==> y in xs
    ensures NoDuplicates(r)
  {
    assert xs[..|xs|] == xs;
    KeepFirst(xs, |xs|)
  }

  /** `s` with every occurrence of `x` taken out, order kept. */
  function Without(s: seq<string>, x: string): (r: seq<string>)
    ensures forall y :: y in r <==> y in s && y != x
    decreases |s|
  {
    if s == [] then []
    else
      var init := s[..|s| - 1];
      var last := s[|s| - 1];
      Without(init, x) + (if last != x then [last] else [])
  }

  /** Taking a value out of a duplicate-free list keeps it duplicate-free
      and shortens it by one exactly when the value was there. */
  lemma {:induction false} WithoutOfDistinct(s: seq<string>, x: string)
    requires NoDuplicates(s)
    ensures NoDuplicates(Without(s, x))
    ensures |Without(s, x)| == if x in s then |s| - 1 else |s|
    decreases |s|
  {
    if s != [] {
      var init := s[..|s| - 1];
      var last := s[|s| - 1];
      assert s == init + [last];
      assert NoDuplicates(init) && last !in init;
      WithoutOfDistinct(init, x);
    }
  }

  /** The candidate list that `sync` builds. */
  function Chain(optionModel: string, configModel: string): seq<string> {
    Dedup([FirstCandidate(optionModel, configModel)] + FixedModels)
  }

  /** Filtering a list whose tail is already duplicate-free keeps its head
      and drops only the later copy of the head, if there is one. */
  lemma {:induction false} KeepFirstCons(x: string, ys: seq<string>, k: nat)
    requires NoDuplicates(ys) && k <= |ys|
    ensures KeepFirst([x] + ys, k + 1) == [x] + Without(ys[..k], x)
    decreases k
  {
    var xs := [x] + ys;
    if k == 0 {
      assert IndexOf(xs, xs[0]) == 0;
      assert KeepFirst(xs, 1) == KeepFirst(xs, 0) + [xs[0]];
    } else {
      KeepFirstCons(x, ys, k - 1);
      KeepFirstConsStep(x, ys, k);
    }
  }

  lemma {:induction false} KeepFirstConsStep(x: string, ys: seq<string>, k: nat)
    requires NoDuplicates(ys) && 0 < k <= |ys|
    requires KeepFirst([x] + ys, k) == [x] + Without(ys[..k - 1], x)
    ensures KeepFirst([x] + ys, k + 1) == [x] + Without(ys[..k], x)
  {
    var w := Without(ys[..k - 1], x);
    var t: seq<string> := if ys[k - 1] != x then [ys[k - 1]] else [];
    WithoutPrefix(ys, k, x);
    KeepFirstConsLast(x, ys, k);
    assert ([x] + w) + t == [x] + (w + t);
  }

  /** One more element of `[x] + ys` survives the filter exactly when it
      differs from the head. */
  lemma {:induction false} KeepFirstConsLast(x: string, ys: seq<string>, k: nat)
    requires NoDuplicates(ys) && 0 < k <= |ys|
    ensures KeepFirst([x] + ys, k + 1) == KeepFirst([x] + ys, k) + (if ys[k - 1] != x then [ys[k - 1]] else [])
  {
    var xs := [x] + ys;
    KeepFirstUnfold(xs, k);
    assert xs[k] == ys[k - 1];
    IndexOfCons(x, ys, k - 1);
  }

  lemma {:induction false} KeepFirstUnfold(xs: seq<string>, k: nat)
    requires k < |xs|
    ensures KeepFirst(xs, k + 1) == KeepFirst(xs, k) + (if IndexOf(xs, xs[k]) == k then [xs[k]] else [])
  {
  }

  /** In `[x] + ys` with `ys` duplicate-free, an element of `ys` is first
      found at its own position unless it equals the head. */
  lemma {:induction false} IndexOfCons(x: string, ys: seq<string>, k: nat)
    requires NoDuplicates(ys) && k < |ys|
    ensures IndexOf([x] + ys, ys[k]) == if ys[k] == x then 0 else k + 1
  {
    var xs := [x] + ys;
    var y := ys[k];
    var r := IndexOf(xs, y);
    assert xs[k + 1] == y;
    if y != x {
      assert xs[..k + 1] == [x] + ys[..k];
      assert y !in ys[..k];
      assert y !in xs[..k + 1];
    }
  }

  lemma {:induction false} WithoutPrefix(s: seq<string>, k: nat, x: string)
    requires 0 < k <= |s|
    ensures Without(s[..k], x) == Without(s[..k - 1], x) + (if s[k - 1] != x then [s[k - 1]] else [])
  {
    var p := s[..k];
    assert p[..|p| - 1] == s[..k - 1];
    assert p[|p| - 1] == s[k - 1];
  }

  lemma {:induction false} DedupCons(x: string, ys: seq<string>)
    requires NoDuplicates(ys)
    ensures Dedup([x] + ys) == [x] + Without(ys, x)
  {
    KeepFirstCons(x, ys, |ys|);
    assert ys[..|ys|] == ys;
  }

  /** The chain is the first candidate followed by the fixed models other
      than it, in their fixed order. */
  lemma {:induction false} ChainShape(optionModel: string, configModel: string)
    ensures Chain(optionModel, configModel) ==
      [FirstCandidate(optionModel, configModel)] + Without(FixedModels, FirstCandidate(optionModel, configModel))
  {
    DedupCons(FirstCandidate(optionModel, configModel), FixedModels);
  }

  /** The chain has no duplicates, starts with the first non-empty of the
      two models (or the default), contains all four fixed models, and has
      four entries when the first candidate is one of them and five
      otherwise. */
  lemma {:induction false} ChainProperties(optionModel: string, configModel: string)
    ensures var c := Chain(optionModel, configModel);
      NoDuplicates(c) &&
      c[0] == FirstCandidate(optionModel, configModel) && c[0] != "" &&
      (forall m :: m in FixedModels ==> m in c) &&
      |c| == (if FirstCandidate(optionModel, configModel) in FixedModels then 4 else 5)
  {
    ChainShape(optionModel, configModel);
    WithoutOfDistinct(FixedModels, FirstCandidate(optionModel, configModel));
  }

  /** With no model requested or configured, the chain is exactly the four
      fixed models. */
  lemma {:induction false} ChainDefault()
    ensures Chain("", "") == FixedModels
  {
    ChainShape("", "");
    FixedModelsDistinct();
    WithoutHead(FixedModels, DefaultModel);
    assert FixedModels == [DefaultModel] + FixedModels[1..];
  }

  lemma {:induction false} FixedModelsDistinct()
    ensures NoDuplicates(FixedModels) && FixedModels[0] == DefaultModel
  {
  }

  /** Taking the head out of a duplicate-free list leaves its tail. */
  lemma {:induction false} WithoutHead(s: seq<string>, x: string)
    requires NoDuplicates(s) && s != [] && s[0] == x
    ensures Without(s, x) == s[1..]
    decreases |s|
  {
    if |s| > 1 {
      var init := s[..|s| - 1];
      assert init[0] == x && NoDuplicates(init);
      WithoutHead(init, x);
      assert s[|s| - 1] != x;
      assert s[1..] == init[1..] + [s[|s| - 1]];
    }
  }
}
