/**
 * The season roster (internal/roster/roster.go:4-15) and its validator,
 * validateRoster (apps/cli/internal/roster/loader.go:33-58). Loading the
 * roster from the embedded JSON files is not part of this model.
 */
module Roster {
  import opened Outcomes
  import opened Text

  datatype Contestant = Contestant(canonicalName: string, firstName: string, lastName: string, nickname: string)

  datatype SeasonRoster = SeasonRoster(season: int, contestants: seq<Contestant>)

  /** The five ways validateRoster rejects a roster, in the order it checks them. */
  datatype RosterError =
    | SeasonNotPositive(season: int)
    | NoContestants
    | EmptyCanonical(index: nat)
    | DuplicateCanonical(name: string)
    | EmptyFirstName(name: string)

  /** The text of the error validateRoster returns. */
  function Message(e: RosterError): string
  {
    match e
    case SeasonNotPositive(s) => "season must be positive, got " + IntToString(s)
    case NoContestants => "roster must contain at least one contestant"
    case EmptyCanonical(i) => "contestant " + IntToString(i) + " has empty canonical_name"
    case DuplicateCanonical(n) => "duplicate canonical_name: " + n
    case EmptyFirstName(n) => "contestant " + n + " has empty first_name"
  }

  /** The canonical names of a run of contestants: the validator's `canonicalNames` map, as a set. */
  function Canonicals(cs: seq<Contestant>): set<string>
  {
    if cs == [] then {} else Canonicals(cs[..|cs| - 1]) + {cs[|cs| - 1].canonicalName}
  }

  lemma {:induction false} CanonicalsMembers(cs: seq<Contestant>, name: string)
    ensures name in Canonicals(cs) <==> exists j :: 0 <= j < |cs| && cs[j].canonicalName == name
  {
    if cs != [] {
      var init := cs[..|cs| - 1];
      CanonicalsMembers(init, name);
      if exists j :: 0 <= j < |init| && init[j].canonicalName == name {
        var j :| 0 <= j < |init| && init[j].canonicalName == name;
        assert cs[j] == init[j];
      }
      if exists j :: 0 <= j < |cs| && cs[j].canonicalName == name {
        var j :| 0 <= j < |cs| && cs[j].canonicalName == name;
        if j < |init| { assert init[j] == cs[j]; }
      }
    }
  }

  /** Contestant i passes the three per-contestant checks, given the names before it. */
  predicate ContestantOk(cs: seq<Contestant>, i: nat)
    requires i < |cs|
  {
    cs[i].canonicalName != "" && cs[i].canonicalName !in Canonicals(cs[..i]) && cs[i].firstName != ""
  }

  /** The error contestant i raises when it fails: the checks run in this order. */
  function Fault(cs: seq<Contestant>, i: nat): RosterError
    requires i < |cs|
  {
    if cs[i].canonicalName == "" then EmptyCanonical(i)
    else if cs[i].canonicalName in Canonicals(cs[..i]) then DuplicateCanonical(cs[i].canonicalName)
    else EmptyFirstName(cs[i].canonicalName)
  }

  /** The first error among contestants i.. . */
  function ContestantsFrom(cs: seq<Contestant>, i: nat): Option<RosterError>
    requires i <= |cs|
    decreases |cs| - i
  {
    if i == |cs| then None
    else if !ContestantOk(cs, i) then Some(Fault(cs, i))
    else ContestantsFrom(cs, i + 1)
  }

  /** What validateRoster returns: None for nil. */
  function Check(r: SeasonRoster): Option<RosterError>
  {
    if r.season <= 0 then Some(SeasonNotPositive(r.season))
    else if |r.contestants| == 0 then Some(NoContestants)
    else ContestantsFrom(r.contestants, 0)
  }

  /** validateRoster. */
  method ValidateRoster(r: SeasonRoster) returns (err: Option<RosterError>)
    ensures err == Check(r)
  {
    if r.season <= 0 {
      return Some(SeasonNotPositive(r.season));
    }
    if |r.contestants| == 0 {
      return Some(NoContestants);
    }
    var cs := r.contestants;
    var canonicalNames: set<string> := {};
    var i := 0;
    while i < |cs|
      invariant 0 <= i <= |cs|
      invariant canonicalNames == Canonicals(cs[..i])
      invariant ContestantsFrom(cs, 0) == ContestantsFrom(cs, i)
    {
      var contestant := cs[i];
      if contestant.canonicalName == "" {
        return Some(EmptyCanonical(i));
      }
      if contestant.canonicalName in canonicalNames {
        return Some(DuplicateCanonical(contestant.canonicalName));
      }
      canonicalNames := canonicalNames + {contestant.canonicalName};
      if contestant.firstName == "" {
        return Some(EmptyFirstName(contestant.canonicalName));
      }
      assert cs[..i + 1][..i] == cs[..i];
      i := i + 1;
    }
    return None;
  }

  // ---- properties ----

  /** A valid roster: positive season, some contestants, canonical and first names non-empty, canonical names distinct. */
  predicate Valid(r: SeasonRoster)
  {
    && r.season > 0
    && |r.contestants| > 0
    && (forall i :: 0 <= i < |r.contestants| ==>
          r.contestants[i].canonicalName != "" && r.contestants[i].firstName != "")
    && (forall i, j :: 0 <= i < j < |r.contestants| ==>
          r.contestants[i].canonicalName != r.contestants[j].canonicalName)
  }

  lemma {:induction false} FromNoneIff(cs: seq<Contestant>, k: nat)
    requires k <= |cs|
    ensures ContestantsFrom(cs, k) == None <==> forall i :: k <= i < |cs| ==> ContestantOk(cs, i)
    decreases |cs| - k
  {
    if k < |cs| {
      FromNoneIff(cs, k + 1);
    }
  }

  /** validateRoster returns nil exactly for a valid roster. */
  lemma ValidIff(r: SeasonRoster)
    ensures Check(r) == None <==> Valid(r)
  {
    var cs := r.contestants;
    if r.season > 0 && |cs| > 0 {
      FromNoneIff(cs, 0);
      if Valid(r) {
        forall i | 0 <= i < |cs| ensures ContestantOk(cs, i) {
          CanonicalsMembers(cs[..i], cs[i].canonicalName);
        }
      }
      if forall i :: 0 <= i < |cs| ==> ContestantOk(cs, i) {
        forall i | 0 <= i < |cs| ensures cs[i].canonicalName != "" && cs[i].firstName != "" {
          assert ContestantOk(cs, i);
        }
        forall i, j | 0 <= i < j < |cs| ensures cs[i].canonicalName != cs[j].canonicalName {
          assert ContestantOk(cs, j);
          CanonicalsMembers(cs[..j], cs[j].canonicalName);
          assert cs[..j][i] == cs[i];
        }
      }
    }
  }

  lemma {:induction false} FromFirstFault(cs: seq<Contestant>, k: nat)
    requires k <= |cs|
    requires ContestantsFrom(cs, k).Some?
    ensures exists i :: k <= i < |cs| && !ContestantOk(cs, i) && ContestantsFrom(cs, k) == Some(Fault(cs, i)) &&
                        forall j :: k <= j < i ==> ContestantOk(cs, j)
    decreases |cs| - k
  {
    if ContestantOk(cs, k) {
      FromFirstFault(cs, k + 1);
    }
  }

  /**
   * The season is checked first, then emptiness, then the contestants in
   * order: the error reported is that of the first contestant that fails.
   */
  lemma CheckOrder(r: SeasonRoster)
    ensures r.season <= 0 ==> Check(r) == Some(SeasonNotPositive(r.season))
    ensures r.season > 0 && r.contestants == [] ==> Check(r) == Some(NoContestants)
    ensures r.season > 0 && Check(r).Some? && r.contestants != [] ==>
              exists i :: 0 <= i < |r.contestants| && !ContestantOk(r.contestants, i) &&
                          Check(r) == Some(Fault(r.contestants, i)) &&
                          forall j :: 0 <= j < i ==> ContestantOk(r.contestants, j)
  {
    if r.season > 0 && Check(r).Some? && r.contestants != [] {
      FromFirstFault(r.contestants, 0);
    }
  }

  lemma {:induction false} CanonicalsSame(cs: seq<Contestant>, ds: seq<Contestant>)
    requires |cs| == |ds|
    requires forall i :: 0 <= i < |cs| ==> cs[i].canonicalName == ds[i].canonicalName
    ensures Canonicals(cs) == Canonicals(ds)
  {
    if cs != [] {
      CanonicalsSame(cs[..|cs| - 1], ds[..|ds| - 1]);
    }
  }

  lemma {:induction false} FromSame(cs: seq<Contestant>, ds: seq<Contestant>, k: nat)
    requires |cs| == |ds| && k <= |cs|
    requires forall i :: 0 <= i < |cs| ==>
               cs[i].canonicalName == ds[i].canonicalName && cs[i].firstName == ds[i].firstName
    ensures ContestantsFrom(cs, k) == ContestantsFrom(ds, k)
    decreases |cs| - k
  {
    if k < |cs| {
      CanonicalsSame(cs[..k], ds[..k]);
      FromSame(cs, ds, k + 1);
    }
  }

  /** Last names and nicknames are never looked at: rosters that differ only there validate alike. */
  lemma IgnoresLastAndNickname(r: SeasonRoster, s: SeasonRoster)
    requires r.season == s.season && |r.contestants| == |s.contestants|
    requires forall i :: 0 <= i < |r.contestants| ==>
               r.contestants[i].canonicalName == s.contestants[i].canonicalName &&
               r.contestants[i].firstName == s.contestants[i].firstName
    ensures Check(r) == Check(s)
  {
    if r.season > 0 && |r.contestants| > 0 {
      FromSame(r.contestants, s.contestants, 0);
    }
  }

  /** Two contestants with one canonical name: the second is the duplicate. */
  lemma DuplicateReported(c: Contestant, d: Contestant, season: int)
    requires season > 0 && c.canonicalName != "" && c.firstName != ""
    requires d.canonicalName == c.canonicalName
    ensures Check(SeasonRoster(season, [c, d])) == Some(DuplicateCanonical(c.canonicalName))
  {
    var cs := [c, d];
    assert cs[..0] == [] && cs[..1] == [c];
    assert Canonicals([c]) == {c.canonicalName} by {
      assert [c][..0] == [];
    }
    assert ContestantOk(cs, 0);
    assert !ContestantOk(cs, 1);
    assert ContestantsFrom(cs, 0) == ContestantsFrom(cs, 1);
    assert Fault(cs, 1) == DuplicateCanonical(c.canonicalName);
  }
}
