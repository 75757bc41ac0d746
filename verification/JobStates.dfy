/** What the state of a job says: the paid path reads it as substrings and the unwound path as
    whole markers. */
module JobStates {
  import opened Wrappers
  import opened SeasonRules
  import opened UnwoundWork
  import opened StateMarkers

  /** The field that says the primary was slashed: true, false, missing, or another value, which Python takes as true or
      as false. */
  datatype Slash = Slashed | NotSlashed | Absent | Other(truthy: bool)

  predicate Truthy(s: Slash) { s.Slashed? || (s.Other? && s.truthy) }

  datatype Job = Job(id: string, client: string, minerId: string, state: string, slashed: Slash)

  // ---------------------------------------------------------------- the two paths

  predicate BadMarker(s: string) {
    Contains(s, "clawed") || Contains(s, "unwound") || Contains(s, "refunded") || Contains(s, "expired")
  }

  predicate FinalPositive(j: Job) {
    && Contains(j.state, "+paid") && !BadMarker(j.state) && !Truthy(j.slashed)
    && !(Contains(j.state, "+disputed") && !Contains(j.state, "resolved"))
  }

  const CONVICTED := "0"
  const CLEARED := "1"

  /** The verdict a concluded audit reached. */
  function AuditOutcome(j: Job): Option<string> {
    if !Contains(j.state, "+disputed") || !Contains(j.state, "resolved") || Contains(j.state, "unwound") then None
    else Some(if Contains(j.state, "clawed") || Truthy(j.slashed) then CONVICTED else CLEARED)
  }

  const NOT_AN_UNWIND := ["vindicated", "adjudicated", "quorum", "expired", "refunded"]

  /** What the chain says of an unwound job: nothing when it was not unwound; refused when its slash was not read or is
      neither true nor false. */
  function JobUnwound(j: Job): Result<Option<Why>> {
    var tokens := Split(j.state);
    if "unwound" !in tokens then Ok(None)
    else if j.slashed.Absent? then Refused
    else if j.slashed.Slashed? || "clawed" in tokens then Ok(Some(Why.Convicted))
    else if !j.slashed.NotSlashed? then Refused
    else if "paid" !in tokens || "resolved" !in tokens then Ok(Some(UnexpectedState))
    else if exists m | m in NOT_AN_UNWIND :: m in tokens then Ok(Some(UnexpectedState))
    else if j.minerId == "" then Ok(Some(NoPrimary))
    else Ok(Some(Clear))
  }

  /** No job is on both paths: a job paid as final was not unwound, and no audit of it is read from its state then. */
  lemma {:induction false} PathsApart(j: Job)
    ensures FinalPositive(j) ==> JobUnwound(j) == Ok(None)
    ensures JobUnwound(j) != Ok(None) ==> AuditOutcome(j).None?
    ensures FinalPositive(j) && AuditOutcome(j).Some? ==> AuditOutcome(j) == Some(CLEARED)
  {
    if "unwound" in Split(j.state) { MarkerIsSubstring(j.state, "unwound"); }
  }

  // ---------------------------------------------------------------- what the paths read, on markers and slash

  /** Paid, nothing taken back, no slash, and no audit or dispute open. */
  ghost predicate PaidForGood(j: Job) {
    && LaterMarkerBegins(j.state, "paid") && !Truthy(j.slashed)
    && !SomeMarkerHolds(j.state, "clawed") && !SomeMarkerHolds(j.state, "unwound")
    && !SomeMarkerHolds(j.state, "refunded") && !SomeMarkerHolds(j.state, "expired")
    && (LaterMarkerBegins(j.state, "disputed") ==> SomeMarkerHolds(j.state, "resolved"))
  }

  /** What the paid path reads in a state, marker by marker. */
  lemma {:induction false} FinalPositiveMeans(j: Job)
    ensures FinalPositive(j) <==> PaidForGood(j)
  {
    WordBeginsMarker(j.state, "paid");
    WordBeginsMarker(j.state, "disputed");
    WordInMarker(j.state, "clawed");
    WordInMarker(j.state, "unwound");
    WordInMarker(j.state, "refunded");
    WordInMarker(j.state, "expired");
    WordInMarker(j.state, "resolved");
    assert "+" + "paid" == "+paid" && "+" + "disputed" == "+disputed";
    hide Contains, LaterMarkerBegins, SomeMarkerHolds;
  }

  /** An audit concluded: disputed, resolved, not unwound. */
  ghost predicate Concluded(j: Job) {
    && LaterMarkerBegins(j.state, "disputed") && SomeMarkerHolds(j.state, "resolved")
    && !SomeMarkerHolds(j.state, "unwound")
  }

  /** The outcome of a concluded audit: a conviction when something was clawed back or the miner was slashed. */
  lemma {:induction false} OutcomeMeans(j: Job)
    ensures AuditOutcome(j).Some? <==> Concluded(j)
    ensures Concluded(j) ==>
              AuditOutcome(j) == Some(if SomeMarkerHolds(j.state, "clawed") || Truthy(j.slashed) then "0" else "1")
  {
    WordBeginsMarker(j.state, "disputed");
    WordInMarker(j.state, "clawed");
    WordInMarker(j.state, "unwound");
    WordInMarker(j.state, "resolved");
    assert "+" + "disputed" == "+disputed";
    hide Contains, LaterMarkerBegins, SomeMarkerHolds;
  }

  /** An unwound audit no verdict went against: its slash read as false, nothing clawed back, paid and resolved, no
      other ending, and a miner named. */
  ghost predicate UnwoundClear(j: Job) {
    && IsMarker(j.state, "unwound") && j.slashed.NotSlashed? && !IsMarker(j.state, "clawed")
    && IsMarker(j.state, "paid") && IsMarker(j.state, "resolved") && j.minerId != ""
    && !IsMarker(j.state, "vindicated") && !IsMarker(j.state, "adjudicated") && !IsMarker(j.state, "quorum")
    && !IsMarker(j.state, "expired") && !IsMarker(j.state, "refunded")
  }

  lemma {:induction false} AnyOf(tokens: seq<string>)
    ensures (exists m | m in NOT_AN_UNWIND :: m in tokens) <==>
              || "vindicated" in tokens || "adjudicated" in tokens || "quorum" in tokens
              || "expired" in tokens || "refunded" in tokens
  {
    assert NOT_AN_UNWIND[0] == "vindicated" && NOT_AN_UNWIND[1] == "adjudicated" && NOT_AN_UNWIND[2] == "quorum";
    assert NOT_AN_UNWIND[3] == "expired" && NOT_AN_UNWIND[4] == "refunded";
  }

  /** What the unwound path reads: nothing without the marker; a conviction never clear; clear exactly as above. */
  lemma {:induction false} JobUnwoundMeans(j: Job)
    ensures JobUnwound(j) == Ok(None) <==> !IsMarker(j.state, "unwound")
    ensures JobUnwound(j).Refused? <==>
              IsMarker(j.state, "unwound") && (j.slashed.Absent? || (j.slashed.Other? && !IsMarker(j.state, "clawed")))
    ensures JobUnwound(j) == Ok(Some(Why.Convicted)) <==>
              && IsMarker(j.state, "unwound")
              && (j.slashed.Slashed? || (!j.slashed.Absent? && IsMarker(j.state, "clawed")))
    ensures JobUnwound(j) == Ok(Some(Clear)) <==> UnwoundClear(j)
    ensures JobUnwound(j) == Ok(Some(NoPrimary)) <==> j.minerId == "" && UnwoundClear(j.(minerId := "m"))
  {
    hide JobUnwound, Split, IsMarker;
    var tokens := Split(j.state);
    JobUnwoundReads(j);
    JobUnwoundReads(j.(minerId := "m"));
    forall m ensures m in tokens <==> IsMarker(j.state, m) { SplitFindsMarkers(j.state, m); }
  }

  /** The same on the markers of the split state. */
  lemma {:induction false} JobUnwoundReads(j: Job)
    ensures var tokens, r := Split(j.state), JobUnwound(j);
            && (r == Ok(None) <==> "unwound" !in tokens)
            && (r.Refused? <==>
                  "unwound" in tokens && (j.slashed.Absent? || (j.slashed.Other? && "clawed" !in tokens)))
            && (r == Ok(Some(Why.Convicted)) <==>
                  "unwound" in tokens && (j.slashed.Slashed? || (!j.slashed.Absent? && "clawed" in tokens)))
            && (r == Ok(Some(Clear)) <==> UnwoundAlone(j, tokens) && j.minerId != "")
            && (r == Ok(Some(NoPrimary)) <==> UnwoundAlone(j, tokens) && j.minerId == "")
  {
    hide Split;
    AnyOf(Split(j.state));
  }

  predicate UnwoundAlone(j: Job, tokens: seq<string>) {
    && "unwound" in tokens && j.slashed.NotSlashed? && "clawed" !in tokens && "paid" in tokens && "resolved" in tokens
    && "vindicated" !in tokens && "adjudicated" !in tokens && "quorum" !in tokens
    && "expired" !in tokens && "refunded" !in tokens
  }
}
