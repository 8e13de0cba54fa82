/** The data logic of mass campaigns: argument checks, the one-shot and
    polling strategies, the "not approving" difference, the council fallback of
    the proposal lookup, and the diff of one poll against the names already
    seen. Fetches are answered from a snapshot of the directory. */
module Campaign {
  import opened Types
  import opened Text

  /** What the directory API would answer right now. Each list is the raw
      delimited text field of the answer; `proposalApprovals(council, id)` is
      the approvals field of proposal `id` in that council, if listed there. */
  datatype Directory = Directory(
    regionNations: string -> string,   // ':'-separated
    waMembers: string,                 // ','-separated
    waDelegates: string,               // ','-separated
    newNations: string,                // ','-separated
    proposalApprovals: (string, string) -> Option<string>)  // ':'-separated

  /** The state a campaign is left in once its first step is done. */
  datatype CampaignState =
    | Finished                                         // one-shot path
    | Polling(regions: seq<string>, existing: set<string>)   // polling path

  /** The members of one region: the ':'-separated field cut at every ':'. */
  function RegionMembers(d: Directory, region: string): (r: seq<string>)
    ensures SplitOf(r, d.regionNations(region), ':')
  {
    JoinSplit(d.regionNations(region), ':');
    Split(d.regionNations(region), ':')
  }

  /** The members of every listed region, region after region. */
  function AllRegionsMembers(d: Directory, regions: seq<string>): seq<string>
    decreases |regions|
  {
    if regions == [] then []
    else AllRegionsMembers(d, regions[..|regions| - 1]) + RegionMembers(d, regions[|regions| - 1])
  }

  /** At least one name per listed region, and none holding the separator. */
  lemma {:induction false} AllRegionsMembersParts(d: Directory, regions: seq<string>)
    ensures |AllRegionsMembers(d, regions)| >= |regions|
    ensures forall i :: 0 <= i < |AllRegionsMembers(d, regions)| ==> ':' !in AllRegionsMembers(d, regions)[i]
    decreases |regions|
  {
    if regions != [] {
      var init := regions[..|regions| - 1];
      AllRegionsMembersParts(d, init);
      var r, front, last := AllRegionsMembers(d, regions), AllRegionsMembers(d, init), RegionMembers(d, regions[|regions| - 1]);
      assert r == front + last;
      forall i | 0 <= i < |r| ensures ':' !in r[i] {
        if i < |front| {
          assert r[i] == front[i];
        } else {
          assert r[i] == last[i - |front|];
        }
      }
    }
  }

  /** A name is among the members of the listed regions exactly when it is a
      member of one of them. */
  lemma {:induction false} AllRegionsMembersElems(d: Directory, regions: seq<string>)
    ensures forall x :: x in AllRegionsMembers(d, regions) <==>
      exists j :: 0 <= j < |regions| && x in RegionMembers(d, regions[j])
    decreases |regions|
  {
    if regions != [] {
      var init, last := regions[..|regions| - 1], regions[|regions| - 1];
      AllRegionsMembersElems(d, init);
      forall x | x in AllRegionsMembers(d, regions)
        ensures exists j :: 0 <= j < |regions| && x in RegionMembers(d, regions[j])
      {
        if x in AllRegionsMembers(d, init) {
          var j :| 0 <= j < |init| && x in RegionMembers(d, init[j]);
          assert regions[j] == init[j];
        } else {
          assert x in RegionMembers(d, regions[|regions| - 1]);
        }
      }
      forall x, j | 0 <= j < |regions| && x in RegionMembers(d, regions[j])
        ensures x in AllRegionsMembers(d, regions)
      {
        if j < |init| {
          assert init[j] == regions[j];
        }
      }
    }
  }

  /** Region after region: the members of two region lists in a row are the
      members of the first list followed by those of the second. */
  lemma {:induction false} AllRegionsMembersAppend(d: Directory, a: seq<string>, b: seq<string>)
    ensures AllRegionsMembers(d, a + b) == AllRegionsMembers(d, a) + AllRegionsMembers(d, b)
    decreases |b|
  {
    if b == [] {
      assert a + b == a;
    } else {
      var init := b[..|b| - 1];
      AllRegionsMembersAppend(d, a, init);
      assert (a + b)[..|a + b| - 1] == a + init;
      assert (a + b)[|a + b| - 1] == b[|b| - 1];
    }
  }

  function WaMembers(d: Directory): (r: seq<string>)
    ensures SplitOf(r, d.waMembers, ',')
  {
    JoinSplit(d.waMembers, ',');
    Split(d.waMembers, ',')
  }

  function WaDelegates(d: Directory): (r: seq<string>)
    ensures SplitOf(r, d.waDelegates, ',')
  {
    JoinSplit(d.waDelegates, ',');
    Split(d.waDelegates, ',')
  }

  function NewNations(d: Directory): (r: seq<string>)
    ensures SplitOf(r, d.newNations, ',')
  {
    JoinSplit(d.newNations, ',');
    Split(d.newNations, ',')
  }

  /** The distinct elements of a sequence. */
  function Elems<T>(s: seq<T>): set<T>
  {
    set x | x in s
  }

  lemma ElemsEmpty<T>(s: seq<T>)
    ensures Elems(s) == {} <==> s == []
  {
    if s != [] {
      assert s[0] in Elems(s);
    }
  }

  /** `a` is `b` with some elements left out, the rest in their order. */
  ghost predicate Subsequence<T>(a: seq<T>, b: seq<T>)
    decreases |b|
  {
    a == [] || (b != [] && ((a[0] == b[0] && Subsequence(a[1..], b[1..])) || Subsequence(a, b[1..])))
  }

  ghost predicate NoDuplicates<T>(s: seq<T>)
  {
    forall i, j :: 0 <= i < j < |s| ==> s[i] != s[j]
  }

  /** The argument checks of a campaign, and the region argument as a list:
      a single string becomes a one-element list. The proposal check comes
      first; an empty string stands for a missing proposal. */
  function Validate(group: NationGroup, regions: Regions, proposal: string): (r: Result<seq<string>>)
    ensures r == Err(NoProposal) <==> group.NeedsProposal() && proposal == ""
    ensures r == Err(NoRegions) <==> group.NeedsRegions() && !regions.Truthy()
    ensures r.Ok? && regions.OneRegion? ==> r.value == [regions.name]
    ensures r.Ok? && regions.RegionList? ==> r.value == regions.names
    ensures r.Ok? <==> !(group.NeedsProposal() && proposal == "") && !(group.NeedsRegions() && !regions.Truthy())
    ensures r.Ok? && regions.NoRegionArg? ==> r.value == []
    ensures r.Ok? && group.NeedsRegions() ==> r.value != []
  {
    if group.NeedsProposal() && proposal == "" then Err(NoProposal)
    else if group.NeedsRegions() && !regions.Truthy() then Err(NoRegions)
    else
      match regions
      case NoRegionArg => Ok([])
      case OneRegion(name) => Ok([name])
      case RegionList(names) => Ok(names)
  }

  /** The delegates approving a proposal: look in the given council, and when
      the proposal is not listed in council "1" look again in council "2";
      not listed in either gives the empty list. */
  function ApprovingDelegates(d: Directory, proposal: string, council: string): (r: seq<string>)
    ensures forall i :: 0 <= i < |r| ==> ':' !in r[i]
    ensures r != [] ==> d.proposalApprovals(council, proposal).Some?
                        || (council == "1" && d.proposalApprovals("2", proposal).Some?)
    decreases if council == "1" then 1 else 0
  {
    match d.proposalApprovals(council, proposal)
    case Some(approvals) => Split(approvals, ':')
    case None => if council == "1" then ApprovingDelegates(d, proposal, "2") else []
  }

  /** The lookup tries council 1, then council 2, then gives up with []. */
  lemma ApprovingFallback(d: Directory, proposal: string)
    ensures d.proposalApprovals("1", proposal).Some? ==>
      ApprovingDelegates(d, proposal, "1") == Split(d.proposalApprovals("1", proposal).value, ':')
    ensures d.proposalApprovals("1", proposal).None? && d.proposalApprovals("2", proposal).Some? ==>
      ApprovingDelegates(d, proposal, "1") == Split(d.proposalApprovals("2", proposal).value, ':')
    ensures d.proposalApprovals("1", proposal).None? && d.proposalApprovals("2", proposal).None? ==>
      ApprovingDelegates(d, proposal, "1") == []
  {
    assert "1" != "2";
  }

  /** The delegates absent from the approving list, in delegate order
      (duplicates among the delegates are kept). */
  function NotApproving(delegates: seq<string>, approving: seq<string>): (r: seq<string>)
    ensures |r| <= |delegates|
    decreases |delegates|
  {
    if delegates == [] then []
    else (if delegates[0] in approving then [] else [delegates[0]]) + NotApproving(delegates[1..], approving)
  }

  /** A delegate is queued exactly when it is not approving. */
  lemma {:induction false} NotApprovingMembers(delegates: seq<string>, approving: seq<string>)
    ensures forall x :: x in NotApproving(delegates, approving) <==> x in delegates && x !in approving
    decreases |delegates|
  {
    if delegates != [] {
      NotApprovingMembers(delegates[1..], approving);
      assert delegates == [delegates[0]] + delegates[1..];
    }
  }

  /** The difference keeps the delegates it keeps in delegate order. */
  lemma {:induction false} NotApprovingInOrder(delegates: seq<string>, approving: seq<string>)
    ensures Subsequence(NotApproving(delegates, approving), delegates)
    decreases |delegates|
  {
    if delegates != [] {
      NotApprovingInOrder(delegates[1..], approving);
      var rest := NotApproving(delegates[1..], approving);
      if delegates[0] !in approving {
        assert ([delegates[0]] + rest)[1..] == rest;
      } else {
        assert [] + rest == rest;
      }
    }
  }

  /** The difference distributes over concatenation of the delegate list:
      filtering the parts and joining them gives the filtered whole. */
  lemma {:induction false} NotApprovingAppend(a: seq<string>, b: seq<string>, approving: seq<string>)
    ensures NotApproving(a + b, approving) == NotApproving(a, approving) + NotApproving(b, approving)
    decreases |a|
  {
    if a != [] {
      NotApprovingAppend(a[1..], b, approving);
      assert (a + b)[0] == a[0] && (a + b)[1..] == a[1..] + b;
    } else {
      assert a + b == b;
    }
  }

  /** The names one poll enqueues, walking the fetched list in order: a name
      not yet known is enqueued and becomes known, a known one is skipped.
      Names are compared exactly as fetched, not canonicalised. */
  function NewNames(known: set<string>, fetched: seq<string>): (r: seq<string>)
    ensures |r| <= |fetched|
    decreases |fetched|
  {
    if fetched == [] then []
    else if fetched[0] in known then NewNames(known, fetched[1..])
    else [fetched[0]] + NewNames(known + {fetched[0]}, fetched[1..])
  }

  /** One step of the poll's walk over the fetched list: with `known` the
      names known before position `i` and `queued` what the walk enqueued so
      far, the name at `i` is enqueued exactly when it is not yet known. */
  lemma NewNamesWalk(existing: set<string>, fetched: seq<string>, i: nat, known: set<string>, queued: seq<string>)
    requires i < |fetched|
    requires known == existing + Elems(fetched[..i])
    requires queued + NewNames(known, fetched[i..]) == NewNames(existing, fetched)
    ensures fetched[i] in known ==>
      && known == existing + Elems(fetched[..i + 1])
      && queued + NewNames(known, fetched[i + 1..]) == NewNames(existing, fetched)
    ensures fetched[i] !in known ==>
      && known + {fetched[i]} == existing + Elems(fetched[..i + 1])
      && (queued + [fetched[i]]) + NewNames(known + {fetched[i]}, fetched[i + 1..]) == NewNames(existing, fetched)
  {
    assert fetched[i..][1..] == fetched[i + 1..];
    assert fetched[..i + 1] == fetched[..i] + [fetched[i]];
  }

  /** One poll queues exactly the fetched names not already known. */
  lemma {:induction false} NewNamesElems(known: set<string>, fetched: seq<string>)
    ensures Elems(NewNames(known, fetched)) == Elems(fetched) - known
    decreases |fetched|
  {
    if fetched != [] {
      var first, rest := fetched[0], fetched[1..];
      assert fetched == [first] + rest;
      assert Elems(fetched) == {first} + Elems(rest);
      if first in known {
        NewNamesElems(known, rest);
      } else {
        NewNamesElems(known + {first}, rest);
        var r := NewNames(known + {first}, rest);
        assert Elems([first] + r) == {first} + Elems(r);
      }
    }
  }

  /** One poll queues each name at most once. */
  lemma {:induction false} NewNamesNoDuplicates(known: set<string>, fetched: seq<string>)
    ensures NoDuplicates(NewNames(known, fetched))
    decreases |fetched|
  {
    if fetched != [] {
      var first, rest := fetched[0], fetched[1..];
      if first in known {
        NewNamesNoDuplicates(known, rest);
      } else {
        NewNamesNoDuplicates(known + {first}, rest);
        NewNamesElems(known + {first}, rest);
        var r := NewNames(known + {first}, rest);
        assert first !in Elems(r);
        assert forall i :: 0 <= i < |r| ==> r[i] in Elems(r);
      }
    }
  }

  /** The poll walks the fetch front to back: the names queued for a fetch
      `a + b` are those queued for `a`, then those queued for `b` against
      everything known after `a`. With the one-name case (a name is queued
      exactly when it is not known) this fixes the result name by name, in
      order of first occurrence. */
  lemma {:induction false} NewNamesAppend(known: set<string>, a: seq<string>, b: seq<string>)
    ensures NewNames(known, a + b) == NewNames(known, a) + NewNames(known + Elems(a), b)
    decreases |a|
  {
    if a == [] {
      assert a + b == b;
      assert known + Elems(a) == known;
    } else {
      var first, rest := a[0], a[1..];
      assert (a + b)[0] == first && (a + b)[1..] == rest + b;
      assert a == [first] + rest;
      assert Elems(a) == {first} + Elems(rest);
      if first in known {
        NewNamesAppend(known, rest, b);
        assert known + Elems(a) == known + Elems(rest);
      } else {
        NewNamesAppend(known + {first}, rest, b);
        assert known + Elems(a) == known + {first} + Elems(rest);
      }
    }
  }

  /** A name fetched twice is queued where it first occurs. */
  lemma RepeatQueuedAtFirstOccurrence(c: string, d: string)
    requires c != d
    ensures NewNames({}, [c, d, c]) == [c, d]
  {
    NewNamesAppend({}, [c, d], [c]);
    assert [c, d] + [c] == [c, d, c];
  }

  /** One poll queues names in fetch order. */
  lemma {:induction false} NewNamesInFetchOrder(known: set<string>, fetched: seq<string>)
    ensures Subsequence(NewNames(known, fetched), fetched)
    decreases |fetched|
  {
    if fetched != [] {
      var first, rest := fetched[0], fetched[1..];
      if first in known {
        NewNamesInFetchOrder(known, rest);
      } else {
        NewNamesInFetchOrder(known + {first}, rest);
        var r := NewNames(known + {first}, rest);
        assert ([first] + r)[1..] == r;
      }
    }
  }

  /** The list of names the one-shot path enqueues, in enqueue order. The
      polling groups never reach this path and enqueue nothing from it. */
  function OneShotTargets(group: NationGroup, regions: seq<string>, proposal: string, d: Directory): (r: seq<string>)
    ensures !group.OneShot() ==> r == []
    ensures group == AllRegionMembers ==>
      && r == AllRegionsMembers(d, regions)
      && forall x :: x in r <==> exists j :: 0 <= j < |regions| && x in RegionMembers(d, regions[j])
    ensures group == AllWaMembers ==> SplitOf(r, d.waMembers, ',')
    ensures group == AllWaDelegates ==> SplitOf(r, d.waDelegates, ',')
    ensures group == DelegatesApproving ==>
      && (d.proposalApprovals("1", proposal).Some? ==> SplitOf(r, d.proposalApprovals("1", proposal).value, ':'))
      && (d.proposalApprovals("1", proposal).None? && d.proposalApprovals("2", proposal).Some? ==>
            SplitOf(r, d.proposalApprovals("2", proposal).value, ':'))
      && (d.proposalApprovals("1", proposal).None? && d.proposalApprovals("2", proposal).None? ==> r == [])
    ensures group == DelegatesNotApproving ==>
      && (forall x :: x in r <==> x in WaDelegates(d) && x !in ApprovingDelegates(d, proposal, "1"))
      && Subsequence(r, WaDelegates(d))
  {
    match group
    case AllRegionMembers =>
      AllRegionsMembersElems(d, regions);
      AllRegionsMembers(d, regions)
    case AllWaMembers => WaMembers(d)
    case AllWaDelegates => WaDelegates(d)
    case DelegatesApproving =>
      var first, second := d.proposalApprovals("1", proposal), d.proposalApprovals("2", proposal);
      ApprovingFallback(d, proposal);
      JoinSplit(if first.Some? then first.value else "", ':');
      JoinSplit(if second.Some? then second.value else "", ':');
      ApprovingDelegates(d, proposal, "1")
    case DelegatesNotApproving =>
      var approving := ApprovingDelegates(d, proposal, "1");
      NotApprovingMembers(WaDelegates(d), approving);
      NotApprovingInOrder(WaDelegates(d), approving);
      NotApproving(WaDelegates(d), approving)
    case _ => []
  }

  /** The names a polling campaign treats as already known before its first
      poll. New founds start from nothing. */
  function Baseline(group: NationGroup, regions: seq<string>, d: Directory): (r: set<string>)
    ensures group.OneShot() || group == NewFounds ==> r == {}
    ensures r <= Elems(PollFetch(group, regions, d))
  {
    match group
    case NewRegionMembers => Elems(AllRegionsMembers(d, regions))
    case NewWaMembers => Elems(WaMembers(d))
    case _ => {}
  }

  /** What one poll of a polling campaign fetches, in order. */
  function PollFetch(group: NationGroup, regions: seq<string>, d: Directory): (r: seq<string>)
    ensures group.OneShot() ==> r == []
    ensures group == NewRegionMembers ==>
      && r == AllRegionsMembers(d, regions)
      && forall x :: x in r <==> exists j :: 0 <= j < |regions| && x in RegionMembers(d, regions[j])
    ensures group == NewWaMembers ==> SplitOf(r, d.waMembers, ',')
    ensures group == NewFounds ==> SplitOf(r, d.newNations, ',')
  {
    match group
    case NewRegionMembers =>
      AllRegionsMembersElems(d, regions);
      AllRegionsMembers(d, regions)
    case NewWaMembers => WaMembers(d)
    case NewFounds => NewNations(d)
    case _ => []
  }

  /** The first poll of a new-founds campaign enqueues every fetched name once. */
  lemma NewFoundsFirstPoll(regions: seq<string>, d: Directory)
    ensures Elems(NewNames(Baseline(NewFounds, regions, d), PollFetch(NewFounds, regions, d)))
         == Elems(NewNations(d))
  {
    NewNamesElems({}, NewNations(d));
  }

  /** A poll of region members or WA members against a directory that has
      not changed since the baseline was taken queues nobody. */
  lemma UnchangedDirectoryQueuesNobody(group: NationGroup, regions: seq<string>, d: Directory)
    requires group == NewRegionMembers || group == NewWaMembers
    ensures NewNames(Baseline(group, regions, d), PollFetch(group, regions, d)) == []
  {
    var r := NewNames(Baseline(group, regions, d), PollFetch(group, regions, d));
    NewNamesElems(Baseline(group, regions, d), PollFetch(group, regions, d));
    ElemsEmpty(r);
  }

  /** Everything enqueued over successive polls, each poll diffed against
      the names known after the previous ones. */
  function PollSequence(existing: set<string>, polls: seq<seq<string>>): seq<string>
    decreases |polls|
  {
    if polls == [] then []
    else NewNames(existing, polls[0]) + PollSequence(existing + Elems(polls[0]), polls[1..])
  }

  /** All names of all polls, in order. */
  function Flatten(polls: seq<seq<string>>): seq<string>
    decreases |polls|
  {
    if polls == [] then [] else polls[0] + Flatten(polls[1..])
  }

  /** Over a whole campaign no name is enqueued twice, none of the baseline is
      enqueued, and every other polled name is enqueued. */
  lemma {:induction false} PollsEnqueueEachNameOnce(existing: set<string>, polls: seq<seq<string>>)
    ensures NoDuplicates(PollSequence(existing, polls))
    ensures Elems(PollSequence(existing, polls)) == Elems(Flatten(polls)) - existing
    decreases |polls|
  {
    if polls != [] {
      var grown := existing + Elems(polls[0]);
      PollsEnqueueEachNameOnce(grown, polls[1..]);
      NewNamesElems(existing, polls[0]);
      NewNamesNoDuplicates(existing, polls[0]);
      var first, rest := NewNames(existing, polls[0]), PollSequence(grown, polls[1..]);
      var all := first + rest;
      forall i, j | 0 <= i < j < |all| ensures all[i] != all[j] {
        if i < |first| && j >= |first| {
          assert all[i] in Elems(first);
          assert all[j] in Elems(rest);
        }
      }
      assert Elems(all) == Elems(first) + Elems(rest);
      assert Elems(Flatten(polls)) == Elems(polls[0]) + Elems(Flatten(polls[1..]));
    }
  }

  /** A poll whose only unknown name comes last queues just that name. */
  lemma {:induction false} OnlyLastIsNew(existing: set<string>, fetched: seq<string>)
    requires fetched != []
    requires forall i :: 0 <= i < |fetched| - 1 ==> fetched[i] in existing
    requires fetched[|fetched| - 1] !in existing
    ensures NewNames(existing, fetched) == [fetched[|fetched| - 1]]
    decreases |fetched|
  {
    if |fetched| > 1 {
      OnlyLastIsNew(existing, fetched[1..]);
    }
  }

  /** Baseline {A, B}, then polls {A, B, C} and {A, B, C, D}: exactly C, then D. */
  lemma DedupExample(a: string, b: string, c: string, d: string)
    requires c != a && c != b && d != a && d != b && d != c
    ensures PollSequence({a, b}, [[a, b, c], [a, b, c, d]]) == [c, d]
  {
    var p1, p2 := [a, b, c], [a, b, c, d];
    var e1, e2 := {a, b}, {a, b, c};
    OnlyLastIsNew(e1, p1);
    OnlyLastIsNew(e2, p2);
    assert e1 + Elems(p1) == e2;
    var e3 := e2 + Elems(p2);
    assert PollSequence(e3, []) == [];
    assert PollSequence(e2, [p2]) == [d] by {
      assert [p2][1..] == [];
    }
    assert [p1, p2][1..] == [p2];
  }
}
