/** Which answer each narrator of `src/agents/narrator.ts` gives, and with which status. */
module NarratorOutcomes {
  import opened Narrator
  import opened Options
  import opened Text

  /** Each of n memories is cited, if there is one. */
  predicate CitesEach(answer: string, n: nat) {
    n > 0 && forall k :: 1 <= k <= n ==> Cites(answer, k)
  }

  /** A complete answer is a valid one that cites every memory; a valid one that does not fails the check
      of citations alone, and an invalid one fails what it failed. */
  lemma CompleteExactly(answer: string, contents: seq<string>, lexicon: Lexicon)
    ensures var valid := ValidateGroundedAnswer(answer, contents, lexicon);
      var complete := ValidateCompleteGroundedAnswer(answer, contents, lexicon);
      && (complete == Valid <==> valid == Valid && CitesEach(answer, |contents|))
      && (valid == Valid && !CitesEach(answer, |contents|) ==> complete == Invalid(Checks(false, true, true)))
      && (valid != Valid ==> complete == valid)
  {
    hide ValidateGroundedAnswer, Cites;
  }

  /** A rendering that the validator accepts. */
  predicate Renderable(memories: seq<string>, lexicon: Lexicon) {
    ExtractiveClaims(memories) != []
    && ValidateGroundedAnswer(JoinSpaced(ExtractiveClaims(memories)), memories, lexicon) == Valid
  }

  predicate Complete(answer: string, memories: seq<string>, lexicon: Lexicon) {
    ValidateCompleteGroundedAnswer(answer, memories, lexicon) == Valid
  }

  /** The memories as they are, each after its number. */
  function Fallback(memories: seq<string>): string {
    "Retrieved evidence from the agent's CockroachDB memory: "
    + JoinSpaced(seq(|memories|, i requires 0 <= i < |memories| => Entry(memories, i)))
  }

  function Entry(memories: seq<string>, i: nat): string
    requires i < |memories|
  {
    "[" + Decimal(i + 1) + "] " + memories[i]
  }

  lemma EntryIsMarked(memories: seq<string>, i: nat)
    requires i < |memories|
    ensures Marker(Decimal(i + 1)) + " " + memories[i] == Entry(memories, i)
  {
    hide Decimal;
  }

  lemma {:induction false} ListedFrom(memories: seq<string>, k: nat)
    requires k <= |memories|
    ensures |Listed(memories, k)| == |memories| - k
    decreases |memories| - k
  {
    hide Decimal, Marker;
    if k < |memories| {
      ListedFrom(memories, k + 1);
    }
  }

  lemma {:induction false} ListedAt(memories: seq<string>, k: nat, i: nat)
    requires k <= i < |memories|
    ensures |Listed(memories, k)| == |memories| - k && Listed(memories, k)[i - k] == Entry(memories, i)
    decreases i - k
  {
    hide Decimal, Marker, Entry;
    ListedFrom(memories, k);
    if k < i {
      ListedAt(memories, k + 1, i);
    } else {
      EntryIsMarked(memories, k);
    }
  }

  lemma FallbackIs(memories: seq<string>)
    ensures DeterministicGroundedAnswer(memories) == Fallback(memories)
  {
    hide Decimal, JoinSpaced, Listed, Entry;
    ListedFrom(memories, 0);
    forall i | 0 <= i < |memories|
      ensures Listed(memories, 0)[i] == Entry(memories, i)
    {
      ListedAt(memories, 0, i);
    }
    assert Listed(memories, 0) == seq(|memories|, i requires 0 <= i < |memories| => Entry(memories, i));
  }

  lemma NothingRelevant()
    ensures NoMemory()
      == "No relevant memories found that are safe for narration from the agent's CockroachDB memory."
  {
  }

  lemma CanonicalIs(memories: seq<string>, lexicon: Lexicon)
    ensures CanonicalExtractiveAnswer(memories, lexicon)
      == if Renderable(memories, lexicon) then Some(JoinSpaced(ExtractiveClaims(memories))) else None
  {
    hide ValidateGroundedAnswer, ExtractiveFrom, JoinSpaced;
  }

  /** The choice of the model-backed narrator, over the hits that are not hostile: the first answer of the
      model if it is complete, else the second if there is one and it is, else the rendering if the
      validator accepts it, else the memories themselves. All checks are reported passed in the first
      three cases, none otherwise, and evidence is reported withheld exactly when a hit is hostile. */
  lemma BedrockChooses(hits: seq<string>, hostile: string -> bool, lexicon: Lexicon,
                       initial: string, repaired: Option<string>)
    ensures var r := BedrockNarrate(hits, hostile, lexicon, initial, repaired);
      var first, second := Trim(initial), if repaired.Some? then Trim(repaired.value) else "";
      var m := r.memories;
      && (m == [] ==>
            r.status == NoEvidence && r.checks == Checks(false, false, false)
            && r.answer
               == "No relevant memories found that are safe for narration from the agent's CockroachDB memory.")
      && (m != [] && Complete(first, m, lexicon) ==>
            r.status == Verified && r.answer == first && r.checks == Checks(true, true, true))
      && (m != [] && !Complete(first, m, lexicon) && repaired.Some? && Complete(second, m, lexicon) ==>
            r.status == Verified && r.answer == second && r.checks == Checks(true, true, true))
      && (m != [] && !Complete(first, m, lexicon) && !(repaired.Some? && Complete(second, m, lexicon)) ==>
            if Renderable(m, lexicon) then
              && r.status == Extractive && r.answer == JoinSpaced(ExtractiveClaims(m))
              && r.checks == Checks(true, true, true)
            else
              r.status == Narrator.Fallback && r.answer == Fallback(m) && r.checks == Checks(false, false, false))
      && (r.withheld <==> exists hit :: hit in hits && hostile(hit))
  {
    hide ValidateCompleteGroundedAnswer, CanonicalExtractiveAnswer, Renderable, Trim, ExtractiveFrom, JoinSpaced,
         ToCitations, DeterministicGroundedAnswer, Fallback, NoMemory;
    HostileIsWithheld(hits, hostile);
    FallbackIs(ToCitations(hits, hostile));
    CanonicalIs(ToCitations(hits, hostile), lexicon);
    NothingRelevant();
  }

  /** The choice of the offline narrator: the rendering, called verified, or the memories themselves. */
  lemma FakeChooses(hits: seq<string>, hostile: string -> bool, lexicon: Lexicon)
    ensures var r := FakeNarrate(hits, hostile, lexicon);
      var m := r.memories;
      && (m == [] ==>
            r.status == NoEvidence && r.checks == Checks(false, false, false)
            && r.answer
               == "No relevant memories found that are safe for narration from the agent's CockroachDB memory.")
      && (m != [] ==>
            if Renderable(m, lexicon) then
              && r.status == Verified && r.answer == JoinSpaced(ExtractiveClaims(m))
              && r.checks == Checks(true, true, true)
            else
              r.status == Narrator.Fallback && r.answer == Fallback(m) && r.checks == Checks(false, false, false))
      && (r.withheld <==> exists hit :: hit in hits && hostile(hit))
  {
    hide CanonicalExtractiveAnswer, Renderable, ExtractiveFrom, JoinSpaced, ToCitations, DeterministicGroundedAnswer,
         Fallback, NoMemory;
    HostileIsWithheld(hits, hostile);
    FallbackIs(ToCitations(hits, hostile));
    CanonicalIs(ToCitations(hits, hostile), lexicon);
    NothingRelevant();
  }
}
