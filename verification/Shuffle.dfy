/** The in-place Fisher-Yates shuffle, with the random index of every step as an input. */
module Shuffle {
  /** `choices[index]` is the random index drawn at `index`; index 0 draws none. */
  ghost predicate Choices(choices: seq<nat>) { forall i | 0 <= i < |choices| :: choices[i] <= i }

  function Swap<T>(s: seq<T>, i: nat, j: nat): (r: seq<T>)
    requires i < |s| && j < |s|
    ensures |r| == |s|
  {
    s[i := s[j]][j := s[i]]
  }

  /** The order the choices lead to: the last place is settled first. */
  function Shuffled<T>(s: seq<T>, choices: seq<nat>): (r: seq<T>)
    requires |choices| == |s| && Choices(choices)
    ensures |r| == |s|
    decreases |s|
  {
    if s == [] then []
    else
      var last := |s| - 1;
      var t := Swap(s, last, choices[last]);
      Shuffled(t[..last], choices[..last]) + [t[last]]
  }

  method ShuffleInPlace<T>(a: array<T>, choices: seq<nat>)
    requires |choices| == a.Length && Choices(choices)
    modifies a
    ensures a[..] == Shuffled(old(a[..]), choices)
  {
    if a.Length == 0 {
      return;
    }
    var index := a.Length - 1;
    assert choices[..index + 1] == choices && a[..index + 1] == a[..];
    while index > 0
      invariant 0 <= index < a.Length
      invariant Shuffled(a[..index + 1], choices[..index + 1]) + a[index + 1..] == Shuffled(old(a[..]), choices)
    {
      var random := choices[index];
      StepSettles(a[..], choices, index);
      ghost var s := a[..];
      a[index], a[random] := a[random], a[index];
      assert a[..] == Swap(s, index, random);
      assert a[..index] == a[..][..index] && a[index..] == a[..][index..];
      index := index - 1;
    }
    assert Shuffled(a[..1], choices[..1]) == a[..1];
    assert a[..1] + a[1..] == a[..];
  }

  /** One swap settles place `index` for good. */
  lemma StepSettles<T>(s: seq<T>, choices: seq<nat>, index: nat)
    requires |choices| == |s| && Choices(choices) && index < |s|
    ensures var t := Swap(s, index, choices[index]);
      Shuffled(s[..index + 1], choices[..index + 1]) + s[index + 1..]
      == Shuffled(t[..index], choices[..index]) + t[index..]
  {
    var t := Swap(s, index, choices[index]);
    var front := s[..index + 1];
    assert Swap(front, index, choices[index]) == t[..index + 1];
    assert t[..index + 1][..index] == t[..index];
    assert choices[..index + 1][..index] == choices[..index];
    assert t[index..] == [t[index]] + s[index + 1..];
  }

  lemma SwapPermutes<T>(s: seq<T>, i: nat, j: nat)
    requires i < |s| && j < |s|
    ensures multiset(Swap(s, i, j)) == multiset(s)
  {}

  /** The element drawn first stands last; the last one takes its place, and the rest is drawn from what is left. */
  lemma DrawnLast<T>(s: seq<T>, choices: seq<nat>)
    requires s != [] && |choices| == |s| && Choices(choices)
    ensures var last := |s| - 1;
      var rest := s[choices[last] := s[last]][..last];
      && Shuffled(s, choices)[last] == s[choices[last]]
      && Shuffled(s, choices)[..last] == Shuffled(rest, choices[..last])
  {
    var last := |s| - 1;
    assert Swap(s, last, choices[last])[..last] == s[choices[last] := s[last]][..last];
  }

  /** Nothing is lost or doubled, whatever was drawn. */
  lemma {:induction false} ShuffledPermutes<T>(s: seq<T>, choices: seq<nat>)
    requires |choices| == |s| && Choices(choices)
    ensures multiset(Shuffled(s, choices)) == multiset(s)
    decreases |s|
  {
    if s != [] {
      var last := |s| - 1;
      var t := Swap(s, last, choices[last]);
      ShuffledPermutes(t[..last], choices[..last]);
      assert multiset(t) == multiset(s) by { SwapPermutes(s, last, choices[last]); }
      hide Swap;
      SameLast(Shuffled(s, choices), t);
    }
  }

  // ---- Every order has exactly one sequence of choices ----

  ghost predicate Distinct<T(!new)>(s: seq<T>) { forall i, j | 0 <= i < j < |s| :: s[i] != s[j] }

  function IndexOf<T(==)>(s: seq<T>, x: T): (i: nat)
    requires x in s
    ensures i < |s| && s[i] == x
  {
    if s[0] == x then 0 else 1 + IndexOf(s[1..], x)
  }

  /** The choices that lead from `s` to its rearrangement `r`. */
  function ChoicesTo<T(==)>(s: seq<T>, r: seq<T>): (choices: seq<nat>)
    requires multiset(s) == multiset(r)
    ensures |choices| == |s| == |r|
    decreases |s|
  {
    SameLength(s, r);
    if s == [] then []
    else
      var last := |s| - 1;
      assert r[last] in multiset(r);
      var random := IndexOf(s, r[last]);
      var t := Swap(s, last, random);
      FrontPermutes(s, r, random);
      ChoicesTo(t[..last], r[..last]) + [random]
  }

  lemma SameLength<T>(s: seq<T>, r: seq<T>)
    requires multiset(s) == multiset(r)
    ensures |s| == |r|
  {
    assert |multiset(s)| == |s| && |multiset(r)| == |r|;
  }

  lemma FrontPermutes<T>(s: seq<T>, r: seq<T>, random: nat)
    requires multiset(s) == multiset(r) && |s| == |r| > 0 && random < |s| && s[random] == r[|r| - 1]
    ensures var last := |s| - 1; multiset(Swap(s, last, random)[..last]) == multiset(r[..last])
  {
    hide Swap;
    SwapPermutes(s, |s| - 1, random);
    SwapLast(s, random);
    SameFront(Swap(s, |s| - 1, random), r);
  }

  lemma SwapLast<T>(s: seq<T>, random: nat)
    requires random < |s|
    ensures Swap(s, |s| - 1, random)[|s| - 1] == s[random]
  {}

  lemma SameFront<T>(s: seq<T>, r: seq<T>)
    requires multiset(s) == multiset(r) && |s| == |r| > 0 && s[|s| - 1] == r[|r| - 1]
    ensures multiset(s[..|s| - 1]) == multiset(r[..|r| - 1])
  {
    FrontOf(s);
    FrontOf(r);
  }

  /** The other way round: the same elements before the same last one. */
  lemma SameLast<T>(s: seq<T>, r: seq<T>)
    requires |s| == |r| > 0 && s[|s| - 1] == r[|r| - 1]
    requires multiset(s[..|s| - 1]) == multiset(r[..|r| - 1])
    ensures multiset(s) == multiset(r)
  {
    assert s == s[..|s| - 1] + [s[|s| - 1]] && r == r[..|r| - 1] + [r[|r| - 1]];
  }

  lemma FrontOf<T>(s: seq<T>)
    requires s != []
    ensures multiset(s[..|s| - 1]) == multiset(s) - multiset{s[|s| - 1]}
  {
    assert s == s[..|s| - 1] + [s[|s| - 1]];
  }

  /** One step of the way: the last choice is where the last element is found. */
  lemma ChoicesToStep<T>(s: seq<T>, r: seq<T>)
    requires s != [] && multiset(s) == multiset(r)
    ensures |s| == |r| && r[|r| - 1] in s
    ensures var last := |s| - 1;
      var random := IndexOf(s, r[last]);
      var t := Swap(s, last, random);
      && t[last] == r[last] && multiset(t[..last]) == multiset(r[..last])
      && ChoicesTo(s, r) == ChoicesTo(t[..last], r[..last]) + [random]
  {
    SameLength(s, r);
    var last := |s| - 1;
    assert r[last] in multiset(r);
    FrontPermutes(s, r, IndexOf(s, r[last]));
  }

  lemma ShuffledStep<T>(s: seq<T>, choices: seq<nat>, random: nat)
    requires |choices| + 1 == |s| && Choices(choices) && random < |s|
    ensures var last := |s| - 1;
      var t := Swap(s, last, random);
      Choices(choices + [random]) && Shuffled(s, choices + [random]) == Shuffled(t[..last], choices) + [t[last]]
  {
    assert (choices + [random])[..|s| - 1] == choices;
  }

  /** Every rearrangement is reached. */
  lemma {:induction false} Reaches<T>(s: seq<T>, r: seq<T>)
    requires multiset(s) == multiset(r)
    ensures Choices(ChoicesTo(s, r)) && Shuffled(s, ChoicesTo(s, r)) == r
    decreases |s|
  {
    hide Choices, Swap;
    SameLength(s, r);
    if s == [] {
      NoChoices();
    } else {
      var last := |s| - 1;
      ChoicesToStep(s, r);
      var random := IndexOf(s, r[last]);
      var t := Swap(s, last, random);
      Reaches(t[..last], r[..last]);
      ShuffledStep(s, ChoicesTo(t[..last], r[..last]), random);
      assert r == r[..last] + [r[last]];
    }
  }

  lemma NoChoices()
    ensures Choices([])
  {}

  lemma DistinctFront<T(!new)>(s: seq<T>, j: nat)
    requires Distinct(s) && j < |s|
    ensures Distinct(Swap(s, |s| - 1, j)[..|s| - 1])
  {}

  lemma {:induction false} IndexOfDistinct<T(!new)>(s: seq<T>, j: nat)
    requires Distinct(s) && j < |s|
    ensures IndexOf(s, s[j]) == j
    decreases |s|
  {
    if j > 0 {
      assert s[1..][j - 1] == s[j];
      IndexOfDistinct(s[1..], j - 1);
    }
  }

  /** And of distinct elements, by one sequence of choices only: the order drawn gives the draws back. */
  lemma {:induction false} ChoicesRecovered<T(!new)>(s: seq<T>, choices: seq<nat>)
    requires |choices| == |s| && Choices(choices) && Distinct(s)
    ensures multiset(s) == multiset(Shuffled(s, choices)) && ChoicesTo(s, Shuffled(s, choices)) == choices
    decreases |s|
  {
    ShuffledPermutes(s, choices);
    if s != [] {
      var last := |s| - 1;
      var random, front := choices[last], choices[..last];
      var t := Swap(s, last, random);
      assert choices == front + [random];
      ShuffledStep(s, front, random);
      hide Choices, Distinct, ChoicesTo;
      assert Choices(front) by {
        ChoicesFront(choices);
      }
      var r := Shuffled(s, choices);
      assert r[last] == s[random] && r[..last] == Shuffled(t[..last], front);
      IndexOfDistinct(s, random);
      DistinctFront(s, random);
      ChoicesRecovered(t[..last], front);
      ChoicesToStep(s, r);
    }
  }

  lemma ChoicesFront(choices: seq<nat>)
    requires Choices(choices) && choices != []
    ensures Choices(choices[..|choices| - 1])
  {}
}
