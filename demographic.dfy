/**
 * The `Demographic` collection of survey responses, the statistics over it,
 * the pruning of incomplete and inattentive responses, and the sub-populations
 * the analysis selects.
 */
module Demographics {
  import opened Results
  import opened Lists
  import opened SurveyParse

  /** `filter`'s test: membership for a list value, equality for a string value. */
  predicate Matches(v: Value, answer: string)
  {
    match v
    case Choices(codes) => answer in codes
    case Scalar(text) => text == answer
  }

  /** `value != ""`: a string answer counts unless it is empty; a list always counts. */
  predicate Answered(v: Value)
  {
    v != Scalar("")
  }

  /** The record's value for `question` passes `filter`'s test. */
  function MatchesAt(question: nat, answer: string): Record -> bool
  {
    r => question < |r| && Matches(r[question], answer)
  }

  /** The record answered `question`. */
  function AnsweredAt(question: nat): Record -> bool
  {
    r => question < |r| && Answered(r[question])
  }

  /** A subset of all responses, held in a list that pruning shrinks in place. */
  class Demographic {
    var responses: seq<Record>

    ghost predicate Valid()
      reads this
    {
      AllWellFormed(responses)
    }

    constructor (responses: seq<Record>)
      requires AllWellFormed(responses)
      ensures this.responses == responses && Valid()
    {
      this.responses := responses;
    }

    /**
     * Step `i` of `__iter__`: the generator walks the live list by position,
     * so it yields whatever sits at position `i` when the step is taken and
     * stops once `i` reaches the current length.
     */
    function IterStep(i: nat): (x: Option<Record>)
      reads this
      ensures x.Some? <==> i < |responses|
      ensures x.Some? ==> x.value == responses[i]
    {
      if i < |responses| then Some(responses[i]) else None
    }

    /**
     * `remove(elem)`: drops the first response equal to `elem`. A false result
     * stands for the ValueError of an absent element, which leaves the list as
     * it was.
     */
    method Remove(elem: Record) returns (removed: bool)
      requires Valid()
      modifies this
      ensures Valid()
      ensures removed == (elem in old(responses))
      ensures removed ==> responses == RemoveFirst(old(responses), elem)
      ensures !removed ==> responses == old(responses)
    {
      removed := elem in responses;
      if removed {
        RemoveFirstIsSubseq(responses, elem);
        forall r | r in RemoveFirst(responses, elem) ensures WellFormed(r) {
          SubseqMembers(RemoveFirst(responses, elem), responses, r);
        }
        responses := RemoveFirst(responses, elem);
      }
    }

    /**
     * `filter(question, answer)`: a new Demographic holding, in their order,
     * the responses whose value for `question` contains (a list) or equals (a
     * string) `answer`; the shape is looked at per response. This collection
     * is left as it was.
     */
    method Filter(question: nat, answer: string) returns (filtered: Demographic)
      requires Valid() && question < NUM_FIELDS
      ensures fresh(filtered) && filtered.Valid()
      ensures filtered.responses == Keep(responses, MatchesAt(question, answer))
    {
      filtered := new Demographic([]);
      var i := 0;
      while i < |responses|
        invariant 0 <= i <= |responses|
        invariant filtered.responses == Keep(responses[..i], MatchesAt(question, answer))
        invariant filtered.Valid()
      {
        var r := responses[i];
        assert r in responses;
        KeepSnoc(responses[..i], r, MatchesAt(question, answer));
        assert responses[..i + 1] == responses[..i] + [r];
        if Matches(r[question], answer) {
          filtered.responses := filtered.responses + [r];
        }
        i := i + 1;
      }
      assert responses[..i] == responses;
    }

    /**
     * `frac(question, answer)`: the responses `filter` keeps over those that
     * answered `question` at all; no answer at all is a division by zero.
     */
    function Frac(question: nat, answer: string): (r: Result<real>)
      reads this
      requires Valid() && question < NUM_FIELDS
      ensures r.Err? <==> Keep(responses, AnsweredAt(question)) == []
      ensures r.Err? ==> r.error == ZeroDivision
      ensures r.Ok? ==>
                r.value == |Keep(responses, MatchesAt(question, answer))| as real
                           / |Keep(responses, AnsweredAt(question))| as real
    {
      var total := |Keep(responses, AnsweredAt(question))|;
      if total == 0 then Err(ZeroDivision)
      else Ok(|Keep(responses, MatchesAt(question, answer))| as real / total as real)
    }

    /** `pct(question, answer)`: exactly 100 times `frac`, failing when it fails. */
    function Pct(question: nat, answer: string): (r: Result<real>)
      reads this
      requires Valid() && question < NUM_FIELDS
      ensures r.Ok? <==> Frac(question, answer).Ok?
      ensures r.Err? ==> r.error == ZeroDivision
      ensures r.Ok? ==> r.value == 100.0 * Frac(question, answer).value
    {
      match Frac(question, answer)
      case Ok(f) => Ok(f * 100.0)
      case Err(e) => Err(e)
    }
  }

  /** A non-empty answer is only ever matched by a response that answered. */
  lemma MatchedAreAnswered(rs: seq<Record>, question: nat, answer: string)
    requires answer != ""
    ensures |Keep(rs, MatchesAt(question, answer))| <= |Keep(rs, AnsweredAt(question))|
  {
    forall r: Record | r in rs && MatchesAt(question, answer)(r) ensures AnsweredAt(question)(r) {
      if r[question].Scalar? {
        assert r[question].text == answer;
      }
    }
    KeepMonotone(rs, MatchesAt(question, answer), AnsweredAt(question));
  }

  /** For a non-empty answer the fraction lies in [0, 1]. */
  lemma FracInUnitInterval(d: Demographic, question: nat, answer: string)
    requires d.Valid() && question < NUM_FIELDS && answer != ""
    requires d.Frac(question, answer).Ok?
    ensures 0.0 <= d.Frac(question, answer).value <= 1.0
  {
    MatchedAreAnswered(d.responses, question, answer);
    RatioAtMostOne(|Keep(d.responses, MatchesAt(question, answer))|,
                   |Keep(d.responses, AnsweredAt(question))|);
  }

  lemma RatioAtMostOne(m: nat, t: nat)
    requires 0 < t && m <= t
    ensures 0.0 <= m as real / t as real <= 1.0
  {
    var q := m as real / t as real;
    assert q * t as real == m as real;
  }

  /** For a non-empty answer the percentage lies in [0, 100]. */
  lemma PctInRange(d: Demographic, question: nat, answer: string)
    requires d.Valid() && question < NUM_FIELDS && answer != ""
    requires d.Pct(question, answer).Ok?
    ensures 0.0 <= d.Pct(question, answer).value <= 100.0
  {
    FracInUnitInterval(d, question, answer);
  }

  /**
   * The empty answer matches responses the denominator leaves out, so its
   * "fraction" can exceed one.
   */
  lemma EmptyAnswerFracAboveOne(d: Demographic, question: nat, a: Record, b: Record)
    requires d.Valid() && question < NUM_FIELDS && d.responses == [a, b]
    requires WellFormed(a) && WellFormed(b)
    requires a[question] == Scalar("") && b[question] == Choices(["1", ""])
    ensures d.Frac(question, "") == Ok(2.0)
  {
    assert [a, b][1..] == [b];
    assert [b][1..] == [];
    assert "" in b[question].codes;
    assert Keep([b], AnsweredAt(question)) == [b];
    assert Keep([a, b], AnsweredAt(question)) == [b];
    assert Keep([b], MatchesAt(question, "")) == [b];
    assert Keep([a, b], MatchesAt(question, "")) == [a, b];
  }

  // ----- Pruning -----

  /** Attention checks a response must pass at least this many of. */
  const MIN_CORRECT: nat := 2

  /**
   * The attention checks: the field and its authoritative answer. The answer
   * to q2_5 is the list ["3", "4"], so only that list, in that order, passes.
   */
  const ATTENTION_CHECKS: seq<(nat, Value)> :=
    [(Q2_5, Choices(["3", "4"])), (Q3_12, Scalar("2")), (Q5_8, Scalar("4")), (Q6_8, Scalar("1"))]

  /** How many of `checks` the response answers exactly as the authority does. */
  function CountCorrect(r: Record, checks: seq<(nat, Value)>): (n: nat)
    ensures n <= |checks|
    decreases |checks|
  {
    if checks == [] then 0
    else
      (if checks[0].0 < |r| && r[checks[0].0] == checks[0].1 then 1 else 0)
      + CountCorrect(r, checks[1..])
  }

  /** The response's attention-check score. */
  function Score(r: Record): nat
  {
    CountCorrect(r, ATTENTION_CHECKS)
  }

  /** The response passes enough attention checks to be kept. */
  const Passes: Record -> bool := r => Score(r) >= MIN_CORRECT

  /**
   * The score is between 0 and 4 and counts exact equality only: a list
   * answer to a string check, or the codes of q2_5 in another order, score
   * nothing.
   */
  lemma ScoreCountsExactMatches(r: Record)
    requires WellFormed(r)
    ensures Score(r) <= 4
    ensures Score(r) ==
              (if r[Q2_5] == Choices(["3", "4"]) then 1 else 0)
              + (if r[Q3_12] == Scalar("2") then 1 else 0)
              + (if r[Q5_8] == Scalar("4") then 1 else 0)
              + (if r[Q6_8] == Scalar("1") then 1 else 0)
  {
    var c: seq<(nat, Value)> := ATTENTION_CHECKS;
    var c1, c2, c3 := c[1..], c[2..], c[3..];
    assert c1[1..] == c2 && c2[1..] == c3 && c3[1..] == [];
    assert CountCorrect(r, c3) == (if r[Q6_8] == Scalar("1") then 1 else 0);
    assert CountCorrect(r, c2) == (if r[Q5_8] == Scalar("4") then 1 else 0) + CountCorrect(r, c3);
    assert CountCorrect(r, c1) == (if r[Q3_12] == Scalar("2") then 1 else 0) + CountCorrect(r, c2);
    assert CountCorrect(r, c) == (if r[Q2_5] == Choices(["3", "4"]) then 1 else 0) + CountCorrect(r, c1);
  }

  /** The inner loop of `prune_data`: one point per attention check answered exactly. */
  method AttentionScore(response: Record) returns (correct: nat)
    ensures correct == Score(response)
  {
    correct := 0;
    var k := 0;
    while k < |ATTENTION_CHECKS|
      invariant 0 <= k <= |ATTENTION_CHECKS|
      invariant correct + CountCorrect(response, ATTENTION_CHECKS[k..]) == Score(response)
    {
      var (question, authAnswer) := ATTENTION_CHECKS[k];
      assert ATTENTION_CHECKS[k..][1..] == ATTENTION_CHECKS[k + 1..];
      if question < |response| && response[question] == authAnswer {
        correct := correct + 1;
      }
      k := k + 1;
    }
  }

  /**
   * The attention loop of `prune_data` from iterator position `i` on: the
   * response at position `i` of the live list is scored, and a failing one is
   * removed (its first equal copy) before the iterator moves to `i + 1`, so
   * the response that slid into position `i` is never scored.
   */
  function AttentionPass(rs: seq<Record>, i: nat): seq<Record>
    decreases |rs| - i
  {
    if i >= |rs| then rs
    else if Score(rs[i]) < MIN_CORRECT then AttentionPass(RemoveFirst(rs, rs[i]), i + 1)
    else AttentionPass(rs, i + 1)
  }

  /** The survivors are the input with some responses left out, in order. */
  lemma {:induction false} AttentionPassIsSubseq(rs: seq<Record>, i: nat)
    ensures IsSubseq(AttentionPass(rs, i), rs)
    decreases |rs| - i
  {
    if i >= |rs| {
      SubseqRefl(rs);
    } else if Score(rs[i]) < MIN_CORRECT {
      var rest := RemoveFirst(rs, rs[i]);
      RemoveFirstCount(rs, rs[i]);
      AttentionPassIsSubseq(rest, i + 1);
      RemoveFirstIsSubseq(rs, rs[i]);
      SubseqTrans(AttentionPass(rest, i + 1), rest, rs);
    } else {
      AttentionPassIsSubseq(rs, i + 1);
    }
  }

  /**
   * No passing response is ever removed: the passing responses among the
   * survivors are exactly the passing responses of the input, in order.
   */
  lemma {:induction false} AttentionPassKeepsPassing(rs: seq<Record>, i: nat)
    ensures Keep(AttentionPass(rs, i), Passes) == Keep(rs, Passes)
    decreases |rs| - i
  {
    if i < |rs| {
      if Score(rs[i]) < MIN_CORRECT {
        var rest := RemoveFirst(rs, rs[i]);
        RemoveFirstCount(rs, rs[i]);
        AttentionPassKeepsPassing(rest, i + 1);
        KeepIgnoresRemoved(rs, rs[i], Passes);
      } else {
        AttentionPassKeepsPassing(rs, i + 1);
      }
    }
  }

  /**
   * Of two distinct failing responses in a row only the first is removed:
   * the second slides into the scored position and is skipped.
   */
  lemma PruneSkipsSuccessor(a: Record, b: Record)
    requires a != b && Score(a) < MIN_CORRECT && Score(b) < MIN_CORRECT
    ensures AttentionPass([a, b], 0) == [b]
    ensures !Passes(AttentionPass([a, b], 0)[0])
  {
    assert RemoveFirst([a, b], a) == [b];
  }

  /** The responses marked finished, as the first step of `prune_data` selects them. */
  function Finished(rs: seq<Record>): seq<Record>
  {
    Keep(rs, MatchesAt(FINISHED, "1"))
  }

  /**
   * `prune_data`: keeps the finished responses in a new Demographic, then
   * walks it with the live iterator and removes every scored response below
   * MIN_CORRECT. The caller's Demographic is not touched. The progress lines
   * divide by the original size, so an empty input raises ZeroDivisionError.
   */
  method PruneData(demographic: Demographic) returns (result: Result<Demographic>)
    requires demographic.Valid()
    ensures demographic.responses == old(demographic.responses)
    ensures result.Err? <==> |demographic.responses| == 0
    ensures result.Err? ==> result.error == ZeroDivision
    ensures result.Ok? ==> fresh(result.value) && result.value.Valid()
    ensures result.Ok? ==>
              result.value.responses == AttentionPass(Finished(demographic.responses), 0)
  {
    var origSize := |demographic.responses|;
    var d := demographic.Filter(FINISHED, "1");
    if origSize == 0 {
      return Err(ZeroDivision);
    }
    ghost var finished := d.responses;
    var i := 0;
    var step := d.IterStep(i);
    while step.Some?
      invariant fresh(d) && d.Valid()
      invariant step == d.IterStep(i)
      invariant AttentionPass(d.responses, i) == AttentionPass(finished, 0)
      decreases |d.responses| - i
    {
      var response := step.value;
      var correct := AttentionScore(response);
      if correct < MIN_CORRECT {
        var removed := d.Remove(response);
      }
      i := i + 1;
      step := d.IterStep(i);
    }
    return Ok(d);
  }

  /**
   * What `prune_data` evidently intends: the finished responses that pass at
   * least MIN_CORRECT attention checks, in their order.
   */
  function IntendedPrune(rs: seq<Record>): (r: seq<Record>)
    ensures forall x :: x in r <==> x in rs && MatchesAt(FINISHED, "1")(x) && Passes(x)
    ensures IsSubseq(r, rs)
  {
    var f := Finished(rs);
    KeepIsSubseq(rs, MatchesAt(FINISHED, "1"));
    KeepIsSubseq(f, Passes);
    SubseqTrans(Keep(f, Passes), f, rs);
    forall x | x in rs && MatchesAt(FINISHED, "1")(x) && Passes(x) ensures x in Keep(f, Passes) {
      KeepComplete(rs, MatchesAt(FINISHED, "1"), x);
      KeepComplete(f, Passes, x);
    }
    Keep(f, Passes)
  }

  /**
   * The pruning as written keeps every response the intended pruning keeps,
   * in order, and differs from it only by failing responses it skipped.
   */
  lemma PruneDataContainsIntended(rs: seq<Record>)
    ensures Keep(AttentionPass(Finished(rs), 0), Passes) == IntendedPrune(rs)
    ensures IsSubseq(IntendedPrune(rs), AttentionPass(Finished(rs), 0))
    ensures IsSubseq(AttentionPass(Finished(rs), 0), Finished(rs))
  {
    AttentionPassKeepsPassing(Finished(rs), 0);
    KeepIsSubseq(AttentionPass(Finished(rs), 0), Passes);
    AttentionPassIsSubseq(Finished(rs), 0);
  }

  /** With no response marked finished nothing survives. */
  lemma PruneOfUnfinished(rs: seq<Record>)
    requires forall r :: r in rs ==> !MatchesAt(FINISHED, "1")(r)
    ensures AttentionPass(Finished(rs), 0) == []
  {
    KeepNone(rs, MatchesAt(FINISHED, "1"));
  }

  // ----- Sub-populations of `analyse` -----

  /**
   * `set(value)`: the set of codes of a list, or the set of characters
   * (one-character strings) of a string.
   */
  function AnswerSet(v: Value): set<string>
  {
    match v
    case Scalar(text) => set k | 0 <= k < |text| :: [text[k]]
    case Choices(codes) => set c | c in codes
  }

  /** `set(value).issubset(allowed)`. */
  predicate SelectedBy(v: Value, allowed: set<string>)
  {
    AnswerSet(v) <= allowed
  }

  function SelectedAt(question: nat, allowed: set<string>): Record -> bool
  {
    r => question < |r| && SelectedBy(r[question], allowed)
  }

  /** Respondents with an undergraduate or a graduate degree. */
  function Graduates(population: seq<Record>): seq<Record>
  {
    Keep(population, SelectedAt(Q1_5, {"3", "4"}))
  }

  /** Respondents highly knowledgeable or expert in privacy and security. */
  function Experts(population: seq<Record>): seq<Record>
  {
    Keep(population, SelectedAt(Q1_6, {"4", "5"}))
  }

  /** Respondents using Tor Browser daily or as their main browser. */
  function FrequentUsers(population: seq<Record>): seq<Record>
  {
    Keep(population, SelectedAt(Q2_3, {"1", "6"}))
  }

  /**
   * A string answer is selected when each of its characters is an allowed
   * code, so the empty answer is always selected and so is "34" for
   * {"3", "4"}; a list answer is selected when each of its codes is allowed.
   */
  lemma SelectionExamples()
    ensures SelectedBy(Scalar(""), {"3", "4"})
    ensures SelectedBy(Scalar("3"), {"3", "4"})
    ensures SelectedBy(Scalar("34"), {"3", "4"})
    ensures !SelectedBy(Scalar("5"), {"3", "4"})
    ensures SelectedBy(Choices(["3", "4"]), {"3", "4"})
    ensures !SelectedBy(Choices(["3", "5"]), {"3", "4"})
  {
    assert AnswerSet(Scalar("34")) == {"3", "4"} by {
      assert "34"[0] == '3' && "34"[1] == '4';
    }
    assert ["5"[0]] == "5";
    assert "5" in AnswerSet(Scalar("5"));
    assert "5" in AnswerSet(Choices(["3", "5"]));
  }

  /**
   * Each sub-population holds, in population order, exactly the respondents
   * whose answer set lies within the allowed codes.
   */
  lemma SubPopulations(population: seq<Record>, r: Record)
    requires AllWellFormed(population)
    ensures r in Graduates(population) <==> r in population && SelectedBy(r[Q1_5], {"3", "4"})
    ensures r in Experts(population) <==> r in population && SelectedBy(r[Q1_6], {"4", "5"})
    ensures r in FrequentUsers(population) <==> r in population && SelectedBy(r[Q2_3], {"1", "6"})
    ensures IsSubseq(Graduates(population), population)
    ensures IsSubseq(Experts(population), population)
    ensures IsSubseq(FrequentUsers(population), population)
  {
    KeepIsSubseq(population, SelectedAt(Q1_5, {"3", "4"}));
    KeepIsSubseq(population, SelectedAt(Q1_6, {"4", "5"}));
    KeepIsSubseq(population, SelectedAt(Q2_3, {"1", "6"}));
    if r in population {
      if SelectedBy(r[Q1_5], {"3", "4"}) {
        KeepComplete(population, SelectedAt(Q1_5, {"3", "4"}), r);
      }
      if SelectedBy(r[Q1_6], {"4", "5"}) {
        KeepComplete(population, SelectedAt(Q1_6, {"4", "5"}), r);
      }
      if SelectedBy(r[Q2_3], {"1", "6"}) {
        KeepComplete(population, SelectedAt(Q2_3, {"1", "6"}), r);
      }
    }
  }
}
