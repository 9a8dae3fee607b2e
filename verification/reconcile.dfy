/**
 The matching step of `analyze_engagement` in backend/server.py: the roster list of a
 platform is split, in order, into the members who engaged with a post and those who did
 not, by membership in the set of usernames recorded for the post.
 */
module Reconciler {
  import opened Seqs

  /** `set(usernames)`. */
  function Members(usernames: seq<string>): (m: set<string>)
    ensures forall x :: x in m <==> x in usernames
  {
    set x | x in usernames
  }

  /** The roster entries found in `hits`, in roster order, duplicates kept. */
  function Matched(roster: seq<string>, hits: set<string>): (r: seq<string>)
    ensures |r| <= |roster|
    ensures forall i :: 0 <= i < |r| ==> r[i] in hits && r[i] in roster
  {
    if roster == [] then []
    else (if roster[0] in hits then [roster[0]] else []) + Matched(roster[1..], hits)
  }

  /** The roster entries not found in `hits`, in roster order, duplicates kept. */
  function Unmatched(roster: seq<string>, hits: set<string>): (r: seq<string>)
    ensures |r| <= |roster|
    ensures forall i :: 0 <= i < |r| ==> r[i] !in hits && r[i] in roster
  {
    if roster == [] then []
    else (if roster[0] in hits then [] else [roster[0]]) + Unmatched(roster[1..], hits)
  }

  /** Membership in `hits`, as a predicate value for `Filter`. */
  function InSet(hits: set<string>): string -> bool {
    (x: string) => x in hits
  }

  /** Non-membership in `hits`, as a predicate value for `Filter`. */
  function OutOfSet(hits: set<string>): string -> bool {
    (x: string) => x !in hits
  }

  /**
   The two lists are the roster's list comprehensions: the entries in `hits` and the
   entries not in `hits`, each in roster order with duplicates kept.
   */
  lemma {:induction false} MatchedIsFilter(roster: seq<string>, hits: set<string>)
    ensures Matched(roster, hits) == Filter(InSet(hits), roster)
    ensures Unmatched(roster, hits) == Filter(OutOfSet(hits), roster)
  {
    if roster != [] {
      MatchedIsFilter(roster[1..], hits);
    }
  }

  /** Matching works block by block along the roster, so roster order is kept. */
  lemma {:induction false} MatchedAppend(a: seq<string>, b: seq<string>, hits: set<string>)
    ensures Matched(a + b, hits) == Matched(a, hits) + Matched(b, hits)
  {
    if a == [] {
      assert a + b == b;
    } else {
      assert (a + b)[0] == a[0] && (a + b)[1..] == a[1..] + b;
      MatchedAppend(a[1..], b, hits);
      var head := if a[0] in hits then [a[0]] else [];
      calc {
        Matched(a + b, hits);
        head + Matched(a[1..] + b, hits);
        head + (Matched(a[1..], hits) + Matched(b, hits));
        (head + Matched(a[1..], hits)) + Matched(b, hits);
      }
    }
  }

  lemma {:induction false} UnmatchedAppend(a: seq<string>, b: seq<string>, hits: set<string>)
    ensures Unmatched(a + b, hits) == Unmatched(a, hits) + Unmatched(b, hits)
  {
    if a == [] {
      assert a + b == b;
    } else {
      assert (a + b)[0] == a[0] && (a + b)[1..] == a[1..] + b;
      UnmatchedAppend(a[1..], b, hits);
      var head := if a[0] in hits then [] else [a[0]];
      calc {
        Unmatched(a + b, hits);
        head + Unmatched(a[1..] + b, hits);
        head + (Unmatched(a[1..], hits) + Unmatched(b, hits));
        (head + Unmatched(a[1..], hits)) + Unmatched(b, hits);
      }
    }
  }

  /** A roster entry is matched exactly when it is in `hits`, and unmatched exactly when it is not. */
  lemma {:induction false} MatchedMembership(roster: seq<string>, hits: set<string>, x: string)
    ensures x in Matched(roster, hits) <==> x in roster && x in hits
    ensures x in Unmatched(roster, hits) <==> x in roster && x !in hits
  {
    if roster != [] {
      MatchedMembership(roster[1..], hits, x);
      assert x in roster <==> x == roster[0] || x in roster[1..];
    }
  }

  /** Matched and unmatched entries together are the roster, counted with multiplicity. */
  lemma {:induction false} MatchedSplits(roster: seq<string>, hits: set<string>)
    ensures multiset(Matched(roster, hits)) + multiset(Unmatched(roster, hits)) == multiset(roster)
    ensures |Matched(roster, hits)| + |Unmatched(roster, hits)| == |roster|
  {
    if roster != [] {
      MatchedSplits(roster[1..], hits);
      assert roster == [roster[0]] + roster[1..];
    }
  }

  /**
   The share of `part` in `whole` as a percentage, 0 for an empty whole. The source
   rounds it to two decimals; this value is exact.
   */
  function Percentage(part: nat, whole: nat): (p: real)
    ensures whole == 0 ==> p == 0.0
    ensures whole > 0 ==> p * (whole as real) == 100.0 * (part as real)
    ensures 0.0 <= p
    ensures part <= whole ==> p <= 100.0
  {
    if whole > 0 then (part as real) / (whole as real) * 100.0 else 0.0
  }

  /** The result of `analyze_engagement`, without the post's id, title and platform. */
  datatype Analysis = Analysis(
    totalManagement: nat,
    totalEngaged: nat,
    percentage: real,
    engagedUsers: seq<string>,
    notEngagedUsers: seq<string>)

  /** The analysis of a roster against a post's engagement usernames, as a single expression. */
  function Reconcile(roster: seq<string>, engagements: seq<string>): (a: Analysis)
    ensures a.totalManagement == |roster|
    ensures a.totalEngaged == |a.engagedUsers| <= a.totalManagement
    ensures a.totalEngaged + |a.notEngagedUsers| == a.totalManagement
    ensures multiset(a.engagedUsers) + multiset(a.notEngagedUsers) == multiset(roster)
    ensures forall i :: 0 <= i < |a.engagedUsers| ==> a.engagedUsers[i] in engagements
    ensures forall i :: 0 <= i < |a.notEngagedUsers| ==> a.notEngagedUsers[i] !in engagements
    ensures a.percentage == Percentage(a.totalEngaged, a.totalManagement)
  {
    var hits := Members(engagements);
    var engaged := Matched(roster, hits);
    var notEngaged := Unmatched(roster, hits);
    MatchedSplits(roster, hits);
    Analysis(|roster|, |engaged|, Percentage(|engaged|, |roster|), engaged, notEngaged)
  }

  /** The partition keeps the roster's order: a longer roster only appends to both lists. */
  lemma ReconcileAppend(a: seq<string>, b: seq<string>, engagements: seq<string>)
    ensures Reconcile(a + b, engagements).engagedUsers ==
      Reconcile(a, engagements).engagedUsers + Reconcile(b, engagements).engagedUsers
    ensures Reconcile(a + b, engagements).notEngagedUsers ==
      Reconcile(a, engagements).notEngagedUsers + Reconcile(b, engagements).notEngagedUsers
  {
    MatchedAppend(a, b, Members(engagements));
    UnmatchedAppend(a, b, Members(engagements));
  }

  /** Every roster member is engaged exactly when one of the post's engagement records carries its name. */
  lemma ReconcileMembership(roster: seq<string>, engagements: seq<string>, x: string)
    requires x in roster
    ensures x in Reconcile(roster, engagements).engagedUsers <==> x in engagements
    ensures x in Reconcile(roster, engagements).notEngagedUsers <==> x !in engagements
  {
    MatchedMembership(roster, Members(engagements), x);
  }

  /** The percentage lies between 0 and 100, is 0 for an empty roster and is otherwise the engaged share of the roster. */
  lemma ReconcilePercentage(roster: seq<string>, engagements: seq<string>)
    ensures 0.0 <= Reconcile(roster, engagements).percentage <= 100.0
    ensures roster == [] ==> Reconcile(roster, engagements).percentage == 0.0
    ensures roster != [] ==>
      (Reconcile(roster, engagements).percentage * (|roster| as real) ==
       100.0 * (Reconcile(roster, engagements).totalEngaged as real))
  {
    var a := Reconcile(roster, engagements);
    assert a.percentage == Percentage(a.totalEngaged, a.totalManagement);
  }

  /**
   The loop of `analyze_engagement`: walk the roster once, appending each name to the
   engaged or the not-engaged list, then count and compute the percentage.
   */
  method AnalyzeEngagement(roster: seq<string>, engagements: seq<string>) returns (a: Analysis)
    ensures a == Reconcile(roster, engagements)
  {
    var engagedSet := Members(engagements);
    var engagedUsers: seq<string> := [];
    var notEngagedUsers: seq<string> := [];
    var i := 0;
    while i < |roster|
      invariant 0 <= i <= |roster|
      invariant engagedUsers == Matched(roster[..i], engagedSet)
      invariant notEngagedUsers == Unmatched(roster[..i], engagedSet)
    {
      var username := roster[i];
      assert roster[..i + 1] == roster[..i] + [username];
      MatchedAppend(roster[..i], [username], engagedSet);
      UnmatchedAppend(roster[..i], [username], engagedSet);
      if username in engagedSet {
        engagedUsers := engagedUsers + [username];
      } else {
        notEngagedUsers := notEngagedUsers + [username];
      }
      i := i + 1;
    }
    assert roster[..i] == roster;
    var totalManagement := |roster|;
    var percentage := if totalManagement > 0 then (|engagedUsers| as real) / (totalManagement as real) * 100.0 else 0.0;
    a := Analysis(totalManagement, |engagedUsers|, percentage, engagedUsers, notEngagedUsers);
  }

  /** Roster [a, b, c] against engagements [a, c]: two of three engaged, in roster order, and 200/3 percent. */
  lemma ThreeMemberExample()
    ensures Reconcile(["a", "b", "c"], ["a", "c"]) ==
      Analysis(3, 2, 200.0 / 3.0, ["a", "c"], ["b"])
  {
    var roster := ["a", "b", "c"];
    var hits := Members(["a", "c"]);
    assert "a" in hits && "b" !in hits && "c" in hits;
    assert roster[1..] == ["b", "c"] && roster[1..][1..] == ["c"];
    assert Matched(["c"], hits) == ["c"] && Unmatched(["c"], hits) == [];
    assert Matched(["b", "c"], hits) == ["c"] && Unmatched(["b", "c"], hits) == ["b"];
    assert Matched(roster, hits) == ["a", "c"] && Unmatched(roster, hits) == ["b"];
    assert Percentage(2, 3) == 200.0 / 3.0;
  }

  /** An empty roster gives a zero percentage, however many engagements there are. */
  lemma EmptyRosterExample(engagements: seq<string>)
    ensures Reconcile([], engagements).totalManagement == 0
    ensures Reconcile([], engagements).percentage == 0.0
  {
  }
}
