/**
 The troubleshooting report of `debug_normalization` in backend/server.py: the roster and
 engagement lists in full, the same matched/unmatched split as the analysis, and the
 engagement entries whose name is not on the roster.
 */
module Diagnostics {
  import opened Seqs
  import opened Reconciler

  /** A list as the report shows it: its length, its first ten entries and all of it. */
  datatype Listing = Listing(count: nat, sample: seq<string>, all: seq<string>)

  /** A count with the list it counts. */
  datatype Counted = Counted(count: nat, users: seq<string>)

  datatype Report = Report(
    managementUsers: Listing,
    engagementUsers: Listing,
    matches: Counted,
    mismatches: Counted,
    extraEngagements: Counted)

  const SampleSize: nat := 10

  function Min(a: nat, b: nat): nat {
    if a < b then a else b
  }

  function ListingOf(users: seq<string>): (l: Listing)
    ensures l.all == users && l.count == |users|
    ensures l.sample <= users && |l.sample| == Min(|users|, SampleSize)
  {
    Listing(|users|, Take(users, SampleSize), users)
  }

  function CountedOf(users: seq<string>): (c: Counted)
    ensures c.users == users && c.count == |users|
  {
    Counted(|users|, users)
  }

  /** The engagement entries whose name is not on the roster, in engagement order, duplicates kept. */
  function Extras(engagements: seq<string>, roster: seq<string>): (r: seq<string>)
    ensures r == Filter(OutOfSet(Members(roster)), engagements)
    ensures |r| <= |engagements|
    ensures forall i :: 0 <= i < |r| ==> r[i] in engagements && r[i] !in roster
  {
    MatchedIsFilter(engagements, Members(roster));
    Unmatched(engagements, Members(roster))
  }

  /** `debug_normalization` on the usernames fetched for a post and its platform. */
  function Diagnose(roster: seq<string>, engagements: seq<string>): (d: Report)
    ensures d.matches.users == Reconcile(roster, engagements).engagedUsers
    ensures d.mismatches.users == Reconcile(roster, engagements).notEngagedUsers
    ensures d.matches.count == |d.matches.users| && d.mismatches.count == |d.mismatches.users|
    ensures d.matches.count + d.mismatches.count == d.managementUsers.count == |roster|
    ensures d.managementUsers.all == roster && d.engagementUsers.all == engagements
    ensures d.engagementUsers.count == |engagements|
    ensures d.managementUsers.sample <= roster && |d.managementUsers.sample| == Min(|roster|, SampleSize)
    ensures d.engagementUsers.sample <= engagements && |d.engagementUsers.sample| == Min(|engagements|, SampleSize)
    ensures d.extraEngagements.users == Filter(OutOfSet(Members(roster)), engagements)
    ensures d.extraEngagements.count == |d.extraEngagements.users| <= d.engagementUsers.count
    ensures forall i :: 0 <= i < |d.extraEngagements.users| ==>
      d.extraEngagements.users[i] in engagements && d.extraEngagements.users[i] !in roster
  {
    var engagementSet := Members(engagements);
    var matches := Matched(roster, engagementSet);
    var mismatches := Unmatched(roster, engagementSet);
    MatchedSplits(roster, engagementSet);
    Report(ListingOf(roster), ListingOf(engagements), CountedOf(matches), CountedOf(mismatches),
           CountedOf(Extras(engagements, roster)))
  }

  /** An engagement entry is an extra exactly when its name is not on the roster. */
  lemma ExtrasMembership(roster: seq<string>, engagements: seq<string>, x: string)
    ensures x in Diagnose(roster, engagements).extraEngagements.users <==> x in engagements && x !in roster
  {
    MatchedMembership(engagements, Members(roster), x);
  }

  /**
   As sets, the extras are the engaged names minus the roster and the matches are the
   names in both; the lists themselves keep order and duplicates.
   */
  lemma DiagnoseAsSets(roster: seq<string>, engagements: seq<string>)
    ensures Members(Diagnose(roster, engagements).extraEngagements.users) == Members(engagements) - Members(roster)
    ensures Members(Diagnose(roster, engagements).matches.users) == Members(roster) * Members(engagements)
    ensures Members(Diagnose(roster, engagements).mismatches.users) == Members(roster) - Members(engagements)
  {
    var d := Diagnose(roster, engagements);
    forall x
      ensures x in Members(d.extraEngagements.users) <==> x in Members(engagements) - Members(roster)
      ensures x in Members(d.matches.users) <==> x in Members(roster) * Members(engagements)
      ensures x in Members(d.mismatches.users) <==> x in Members(roster) - Members(engagements)
    {
      ExtrasMembership(roster, engagements, x);
      MatchedMembership(roster, Members(engagements), x);
    }
  }

  /** Extras keep every occurrence: two engagement records for one unlisted name give two entries. */
  lemma ExtrasKeepDuplicates(roster: seq<string>, x: string)
    requires x !in roster
    ensures Diagnose(roster, [x, x]).extraEngagements.users == [x, x]
  {
    var rosterSet := Members(roster);
    assert x !in rosterSet;
    assert [x, x][1..] == [x] && [x][1..] == [];
    assert Unmatched([x], rosterSet) == [x];
    assert Unmatched([x, x], rosterSet) == [x, x];
  }

  /** Roster [a, b] against engagements [a, c]: a matches, b is a mismatch and c is an extra. */
  lemma TwoMemberExample()
    ensures Diagnose(["a", "b"], ["a", "c"]).matches.users == ["a"]
    ensures Diagnose(["a", "b"], ["a", "c"]).mismatches.users == ["b"]
    ensures Diagnose(["a", "b"], ["a", "c"]).extraEngagements.users == ["c"]
  {
    var rosterSet := Members(["a", "b"]);
    var engagementSet := Members(["a", "c"]);
    assert "a" in engagementSet && "b" !in engagementSet;
    assert "a" in rosterSet && "c" !in rosterSet;
    assert ["a", "b"][1..] == ["b"] && ["a", "c"][1..] == ["c"];
    assert Matched(["a", "b"], engagementSet) == ["a"] && Unmatched(["a", "b"], engagementSet) == ["b"];
    assert Unmatched(["a", "c"], rosterSet) == ["c"];
  }
}
