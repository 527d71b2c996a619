/** Shuffling the choices of multiple-choice samples, with their targets remapped to the new positions. */
module ChoiceShuffle {
  import opened Sequences
  import opened Wrappers
  import Decimal

  // ----- letters and indices -------------------------------------------------------------------------------------

  datatype Error = ValueError | TypeError | KeyError

  function AnswerCharacter(index: nat): string {
    if index < 26 then [('A' as int + index) as char] else Decimal.ToText(index - 25)
  }

  predicate IsLetter(c: char) {
    'A' <= c <= 'Z' || 'a' <= c <= 'z'
  }

  function Upper(c: char): char {
    if 'a' <= c <= 'z' then (c as int - 'a' as int + 'A' as int) as char else c
  }

  /** `answer_index` on ASCII text. The index can be negative; several letters reach `ord`, which takes only one. */
  function AnswerIndex(text: string): Result<int, Error> {
    if (text != "" && forall c <- text :: IsLetter(c)) || text == "," || text == " " then
      if |text| == 1 then Success(Upper(text[0]) as int - 'A' as int) else Failure(TypeError)
    else if Decimal.AllDigits(text) then Success(25 + Decimal.FromText(text))
    else Failure(ValueError)
  }

  /** The two are inverse for every index, those from 26 on included. */
  lemma IndexOfCharacter(i: nat)
    ensures AnswerIndex(AnswerCharacter(i)) == Success(i)
  {
    if i >= 26 {
      Decimal.RoundTrip(i - 25);
      var t := Decimal.ToText(i - 25);
      assert Decimal.IsDigit(t[0]) && t[0] in t;
    }
  }

  /** A letter selects by its place in the alphabet, in either case; a numeral counts on from there. */
  lemma LettersAndNumerals(i: nat)
    ensures i < 26 ==> AnswerCharacter(i) == [('A' as int + i) as char]
    ensures i < 26 ==> AnswerIndex([('A' as int + i) as char]) == Success(i)
    ensures i < 26 ==> AnswerIndex([('a' as int + i) as char]) == Success(i)
    ensures i > 0 ==> AnswerCharacter(25 + i) == Decimal.ToText(i) && AnswerIndex(Decimal.ToText(i)) == Success(25 + i)
  {
    if i > 0 { IndexOfCharacter(25 + i); }
  }

  lemma DigitsEverywhere(text: string)
    requires text != ""
    ensures Decimal.AllDigits(text) <==> forall c <- text :: '0' <= c <= '9'
  {
    if forall c <- text :: '0' <= c <= '9' {
      forall i | 0 <= i < |text| ensures Decimal.IsDigit(text[i]) { assert text[i] in text; }
    }
  }

  /** Which texts are no answers, and with which error. */
  lemma NoAnswer(text: string)
    ensures AnswerIndex(text) == Failure(TypeError) <==> |text| > 1 && forall c <- text :: 'A' <= c <= 'Z' || 'a' <= c <= 'z'
    ensures AnswerIndex(text) == Failure(ValueError) <==>
      && (text == "" || exists c <- text :: !('A' <= c <= 'Z' || 'a' <= c <= 'z'))
      && (text == "" || exists c <- text :: !('0' <= c <= '9'))
      && text != "," && text != " "
    ensures AnswerIndex(text) != Failure(KeyError)
  {
    if text != "" {
      assert text[0] in text;
      DigitsEverywhere(text);
    }
  }

  /** What an answer text selects from the choices, or the error it raises. */
  function Choose(choices: seq<string>, text: string): Result<string, Error> {
    match AnswerIndex(text)
    case Failure(e) => Failure(e)
    case Success(i) => if 0 <= i < |choices| then Success(choices[i]) else Failure(KeyError)
  }

  /** An answer that stands for no choice is an error of its own. */
  lemma NoChoice(choices: seq<string>, text: string)
    ensures Choose(choices, text) == Failure(KeyError) <==>
              AnswerIndex(text).Success? && !(0 <= AnswerIndex(text).value < |choices|)
  {
    NoAnswer(text);
  }

  // ----- permutations ----------------------------------------------------------------------------------------------

  function Range(n: nat): seq<nat> {
    if n == 0 then [] else Range(n - 1) + [n - 1]
  }

  predicate IsPermutation(p: seq<nat>, n: nat) {
    multiset(p) == multiset(Range(n))
  }

  lemma {:induction false} RangeCounts(n: nat)
    ensures |Range(n)| == n
    ensures forall i: nat :: i < n ==> Range(n)[i] == i
    ensures forall i: nat :: multiset(Range(n))[i] == if i < n then 1 else 0
  {
    if n > 0 { RangeCounts(n - 1); }
  }

  lemma PermutationMeans(p: seq<nat>, n: nat)
    requires IsPermutation(p, n)
    ensures |p| == n
    ensures InRange(p, n) && forall i: nat :: i < n ==> i in p
    ensures forall j, k :: 0 <= j < k < n ==> p[j] != p[k]
  {
    RangeCounts(n);
    assert |multiset(p)| == |p| && |multiset(Range(n))| == n;
    forall i: nat ensures i in p <==> i < n {
      assert i in p <==> i in multiset(p);
    }
    forall j | 0 <= j < |p| ensures p[j] < n {
      assert p[j] in p;
    }
    forall j, k | 0 <= j < k < n ensures p[j] != p[k] {
      assert p == p[..j + 1] + p[j + 1..];
      assert multiset(p) == multiset(p[..j + 1]) + multiset(p[j + 1..]);
      assert p[j] == p[..j + 1][j] && p[k] == p[j + 1..][k - j - 1];
      assert multiset(p)[p[j]] == 1;
    }
  }

  predicate InRange(p: seq<nat>, n: nat) {
    forall j :: 0 <= j < |p| ==> p[j] < n
  }

  function Pick(choices: seq<string>, p: seq<nat>): (r: seq<string>)
    requires InRange(p, |choices|)
    ensures |r| == |p|
    ensures forall j :: 0 <= j < |p| ==> r[j] == choices[p[j]]
  {
    if p == [] then [] else [choices[p[0]]] + Pick(choices, p[1..])
  }

  /** Taking one position out of a list of positions takes out its choice. */
  lemma PickWithout(choices: seq<string>, p: seq<nat>, k: nat)
    requires InRange(p, |choices|) && k < |p|
    ensures InRange(RemoveAt(p, k), |choices|)
    ensures Pick(choices, RemoveAt(p, k)) == RemoveAt(Pick(choices, p), k)
  {
  }

  /** The order of picking does not change what is picked. */
  lemma {:induction false} PickSame(choices: seq<string>, p: seq<nat>, q: seq<nat>)
    requires multiset(p) == multiset(q) && InRange(p, |choices|) && InRange(q, |choices|)
    ensures multiset(Pick(choices, p)) == multiset(Pick(choices, q))
    decreases |p|
  {
    if p == [] {
      assert |multiset(q)| == 0;
    } else {
      var k := Position(q, p[0]);
      PickWithout(choices, p, 0);
      PickWithout(choices, q, k);
      RemoveOne(p, 0);
      RemoveOne(q, k);
      SameRest(multiset(RemoveAt(p, 0)), multiset(RemoveAt(q, k)), p[0]);
      PickSame(choices, RemoveAt(p, 0), RemoveAt(q, k));
      RemoveOne(Pick(choices, p), 0);
      RemoveOne(Pick(choices, q), k);
    }
  }

  lemma SameRest(a: multiset<nat>, b: multiset<nat>, x: nat)
    requires a + multiset{x} == b + multiset{x}
    ensures a == b
  {
    assert a == a + multiset{x} - multiset{x};
    assert b == b + multiset{x} - multiset{x};
  }

  function Shuffled(choices: seq<string>, p: seq<nat>): seq<string>
    requires IsPermutation(p, |choices|)
  {
    PermutationMeans(p, |choices|);
    Pick(choices, p)
  }

  /** Shuffling keeps every choice as often as it was there. */
  lemma ShuffledKeeps(choices: seq<string>, p: seq<nat>)
    requires IsPermutation(p, |choices|)
    ensures multiset(Shuffled(choices, p)) == multiset(choices)
  {
    var n := |choices|;
    PermutationMeans(p, n);
    RangeCounts(n);
    PickSame(choices, p, Range(n));
    assert Pick(choices, Range(n)) == choices;
  }

  // ----- targets -----------------------------------------------------------------------------------------------------

  datatype Target = One(text: string) | Many(texts: seq<string>)

  /** Original position to the letter of the new position. */
  function PositionMap(p: seq<nat>): map<nat, string>
    requires IsPermutation(p, |p|)
  {
    PermutationMeans(p, |p|);
    map j | 0 <= j < |p| :: p[j] := AnswerCharacter(j)
  }

  function RemapOne(text: string, positions: map<nat, string>): Result<string, Error> {
    match AnswerIndex(text)
    case Failure(e) => Failure(e)
    case Success(i) => if i >= 0 && i in positions then Success(positions[i]) else Failure(KeyError)
  }

  function RemapAll(texts: seq<string>, positions: map<nat, string>): Result<seq<string>, Error> {
    if texts == [] then Success([])
    else
      match RemapOne(texts[0], positions)
      case Failure(e) => Failure(e)
      case Success(t) =>
        match RemapAll(texts[1..], positions)
        case Failure(e) => Failure(e)
        case Success(ts) => Success([t] + ts)
  }

  /** `_remap_target`. */
  function RemapTarget(target: Target, positions: map<nat, string>): Result<Target, Error> {
    match target
    case One(text) =>
      (match RemapOne(text, positions) case Failure(e) => Failure(e) case Success(t) => Success(One(t)))
    case Many(texts) =>
      (match RemapAll(texts, positions) case Failure(e) => Failure(e) case Success(ts) => Success(Many(ts)))
  }

  function ChooseAll(choices: seq<string>, texts: seq<string>): Result<seq<string>, Error> {
    if texts == [] then Success([])
    else
      match Choose(choices, texts[0])
      case Failure(e) => Failure(e)
      case Success(t) =>
        match ChooseAll(choices, texts[1..])
        case Failure(e) => Failure(e)
        case Success(ts) => Success([t] + ts)
  }

  /** The texts a target stands for, or the first error met. */
  function Selected(choices: seq<string>, target: Target): Result<seq<string>, Error> {
    match target
    case One(text) => (match Choose(choices, text) case Failure(e) => Failure(e) case Success(t) => Success([t]))
    case Many(texts) => ChooseAll(choices, texts)
  }

  lemma RemapOneSelects(choices: seq<string>, p: seq<nat>, text: string)
    requires IsPermutation(p, |choices|) && IsPermutation(p, |p|)
    ensures RemapOne(text, PositionMap(p)).Success? <==> Choose(choices, text).Success?
    ensures RemapOne(text, PositionMap(p)).Success? ==>
              Choose(Shuffled(choices, p), RemapOne(text, PositionMap(p)).value) == Choose(choices, text)
    ensures RemapOne(text, PositionMap(p)).Failure? ==> Choose(choices, text) == Failure(RemapOne(text, PositionMap(p)).error)
  {
    PermutationMeans(p, |choices|);
    var r := AnswerIndex(text);
    if r.Success? && 0 <= r.value < |choices| {
      MapsTo(p, r.value);
    }
  }

  /** The letter that stands for an original position stands for the position it was shuffled to. */
  lemma MapsTo(p: seq<nat>, i: nat)
    requires IsPermutation(p, |p|) && i < |p|
    ensures i in PositionMap(p)
    ensures var j := AnswerIndex(PositionMap(p)[i]);
            j.Success? && 0 <= j.value < |p| && p[j.value] == i
  {
    PermutationMeans(p, |p|);
    assert i in p;
    var j :| 0 <= j < |p| && p[j] == i;
    assert PositionMap(p)[p[j]] == AnswerCharacter(j);
    IndexOfCharacter(j);
  }

  lemma {:induction false} RemapAllSelects(choices: seq<string>, p: seq<nat>, texts: seq<string>)
    requires IsPermutation(p, |choices|) && IsPermutation(p, |p|)
    ensures RemapAll(texts, PositionMap(p)).Success? ==>
              ChooseAll(Shuffled(choices, p), RemapAll(texts, PositionMap(p)).value) == ChooseAll(choices, texts)
    ensures RemapAll(texts, PositionMap(p)).Success? <==> ChooseAll(choices, texts).Success?
    ensures RemapAll(texts, PositionMap(p)).Failure? ==>
              ChooseAll(choices, texts) == Failure(RemapAll(texts, PositionMap(p)).error)
  {
    if texts != [] {
      RemapOneSelects(choices, p, texts[0]);
      RemapAllSelects(choices, p, texts[1..]);
      var r := RemapAll(texts[1..], PositionMap(p));
      if RemapOne(texts[0], PositionMap(p)).Success? && r.Success? {
        assert ([RemapOne(texts[0], PositionMap(p)).value] + r.value)[1..] == r.value;
      }
    }
  }

  /**
   For every permutation: the remapped target selects the same texts from the shuffled choices as the target selected
   before, and remapping fails exactly when the target does not select choices, with the error of the first that fails.
   */
  lemma RemapSelects(choices: seq<string>, p: seq<nat>, target: Target)
    requires IsPermutation(p, |choices|) && IsPermutation(p, |p|)
    ensures RemapTarget(target, PositionMap(p)).Success? ==>
              && Selected(choices, target).Success?
              && Selected(Shuffled(choices, p), RemapTarget(target, PositionMap(p)).value) == Selected(choices, target)
              && (RemapTarget(target, PositionMap(p)).value.One? <==> target.One?)
    ensures RemapTarget(target, PositionMap(p)).Failure? ==>
              Selected(choices, target) == Failure(RemapTarget(target, PositionMap(p)).error)
  {
    match target
    case One(text) => RemapOneSelects(choices, p, text);
    case Many(texts) => RemapAllSelects(choices, p, texts);
  }

  // ----- the dataset ---------------------------------------------------------------------------------------------------

  class Sample {
    var choices: Option<seq<string>>
    var target: Target

    constructor (choices: Option<seq<string>>, target: Target)
      ensures this.choices == choices && this.target == target
    {
      this.choices, this.target := choices, target;
    }

    predicate Remappable()
      reads this
    {
      Sound(choices, target)
    }

    /** The body of the loop for one sample: the choices are assigned before the target is remapped. */
    method Shuffle(positions: seq<nat>) returns (raised: Option<Error>)
      requires HasChoices(choices) && IsPermutation(positions, |choices.value|)
      modifies this
      ensures raised.None? <==> old(Remappable())
      ensures choices == Some(Shuffled(old(choices).value, positions))
      ensures raised.None? ==> SameQuestion(old(choices), old(target), choices, target)
      ensures raised.Some? ==> target == old(target) && Selected(old(choices).value, target) == Failure(raised.value)
    {
      var before := choices.value;
      PermutationMeans(positions, |before|);
      RemapSelects(before, positions, target);
      ShuffledKeeps(before, positions);
      var positionMap := PositionMap(positions);
      choices := Some(Shuffled(before, positions));
      var remapped := RemapTarget(target, positionMap);
      if remapped.Failure? { return Some(remapped.error); }
      target := remapped.value;
      return None;
    }
  }

  /** The target selects choices, if there are any. */
  predicate Sound(choices: Option<seq<string>>, target: Target) {
    HasChoices(choices) ==> Selected(choices.value, target).Success?
  }

  predicate HasChoices(choices: Option<seq<string>>) {
    choices.Some? && choices.value != []
  }

  /** The choices are the same up to order and the target selects the same texts; without choices nothing changes. */
  predicate SameQuestion(choices: Option<seq<string>>, target: Target, choices': Option<seq<string>>, target': Target) {
    if !HasChoices(choices) then choices' == choices && target' == target
    else
      && choices'.Some?
      && multiset(choices'.value) == multiset(choices.value)
      && Selected(choices'.value, target') == Selected(choices.value, target)
      && (target'.One? <==> target.One?)
  }

  /** The shuffle of the n-th sample, given how many choices it has. */
  type Shuffler = (nat, nat) -> seq<nat>

  ghost predicate Shuffles(shuffler: Shuffler) {
    forall i, n :: IsPermutation(shuffler(i, n), n)
  }

  class MemoryDataset {
    var samples: seq<Sample>

    constructor (samples: seq<Sample>)
      ensures this.samples == samples
    {
      this.samples := samples;
    }

    /**
     `shuffle_choices`. It raises exactly when the target of some sample with choices selects none of them; that sample,
     at `failed`, then has its choices shuffled and its target not, those before it are done, and the rest are as they
     were. The same sample may stand in the list several times.
     */
    method ShuffleChoices(shuffler: Shuffler) returns (raised: Option<Error>, ghost failed: nat)
      requires Shuffles(shuffler)
      modifies samples
      ensures raised.None? ==> failed == |samples|
      ensures raised.Some? ==> failed < |samples| && old(!samples[failed].Remappable())
      ensures forall s <- samples[..failed] ::
        old(s.Remappable()) && SameQuestion(old(s.choices), old(s.target), s.choices, s.target)
      ensures raised.Some? ==> samples[failed].target == old(samples[failed].target)
      ensures raised.Some? ==> var before := old(samples[failed].choices).value;
        && samples[failed].choices == Some(Shuffled(before, shuffler(failed, |before|)))
        && Selected(before, samples[failed].target) == Failure(raised.value)
      ensures raised.Some? ==> forall s <- samples :: s !in samples[..failed + 1] ==>
        s.choices == old(s.choices) && s.target == old(s.target)
    {
      var i := 0;
      while i < |samples|
        invariant 0 <= i <= |samples|
        invariant forall s <- samples[..i] :: old(s.Remappable())
        invariant forall s <- samples[..i] :: SameQuestion(old(s.choices), old(s.target), s.choices, s.target)
        invariant forall s <- samples :: s !in samples[..i] ==> s.choices == old(s.choices) && s.target == old(s.target)
      {
        var sample := samples[i];
        assert samples[..i + 1] == samples[..i] + [sample];
        ghost var choices, target := sample.choices, sample.target;
        if sample !in samples[..i] { SameReflexive(choices, target); }
        SameSound(old(sample.choices), old(sample.target), choices, target);
        if HasChoices(sample.choices) {
          raised := sample.Shuffle(shuffler(i, |sample.choices.value|));
          if raised.Some? { return raised, i; }
        } else {
          SameReflexive(choices, target);
        }
        SameTransitive(old(sample.choices), old(sample.target), choices, target, sample.choices, sample.target);
        i := i + 1;
      }
      return None, i;
    }
  }

  lemma SameReflexive(choices: Option<seq<string>>, target: Target)
    ensures SameQuestion(choices, target, choices, target)
  {
  }

  lemma SameSound(choices: Option<seq<string>>, target: Target, choices': Option<seq<string>>, target': Target)
    requires SameQuestion(choices, target, choices', target')
    ensures Sound(choices, target) <==> Sound(choices', target')
    ensures HasChoices(choices) <==> HasChoices(choices')
  {
    if HasChoices(choices) { assert |multiset(choices'.value)| == |multiset(choices.value)|; }
  }

  lemma SameTransitive(c0: Option<seq<string>>, t0: Target, c1: Option<seq<string>>, t1: Target,
                       c2: Option<seq<string>>, t2: Target)
    requires SameQuestion(c0, t0, c1, t1) && SameQuestion(c1, t1, c2, t2)
    ensures SameQuestion(c0, t0, c2, t2)
  {
    SameSound(c0, t0, c1, t1);
  }
}
