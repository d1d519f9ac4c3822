/** The deterministic parts of the hotspot-targets provider: cleaning the raw
    target records delivered by the store subscription, and the trip rewrite
    performed by `resetHotspotTargets`. */
module HotspotTargets {
  import opened Wrappers
  import opened Types
  import Seqs

  /** `!target.hotspotId` is false: the record names a hotspot. */
  predicate HasHotspotId(t: Targets) {
    Truthy(t.hotspotId)
  }

  /** Record `i` names a hotspot that no earlier record names. */
  predicate IsFirstOccurrence(ts: seq<Targets>, i: nat)
    requires i < |ts|
  {
    HasHotspotId(ts[i]) && forall j :: 0 <= j < i ==> ts[j].hotspotId != ts[i].hotspotId
  }

  /** The records that `cleanTargets` keeps: exactly the first occurrences,
      in input order. */
  function Clean(ts: seq<Targets>): seq<Targets>
  {
    if ts == [] then []
    else Clean(ts[..|ts| - 1]) + (if IsFirstOccurrence(ts, |ts| - 1) then [ts[|ts| - 1]] else [])
  }

  /** The hotspot ids that the records of `ts` name. */
  function IdSet(ts: seq<Targets>): set<string>
  {
    set i | 0 <= i < |ts| && HasHotspotId(ts[i]) :: ts[i].hotspotId.value
  }

  /** `cleanTargets`: a filter whose callback consults and extends the set of
      hotspot ids seen so far. */
  method CleanTargets(targets: seq<Targets>) returns (kept: seq<Targets>)
    ensures kept == Clean(targets)
  {
    var encounteredIds: set<string> := {};
    kept := [];
    var i := 0;
    while i < |targets|
      invariant 0 <= i <= |targets|
      invariant kept == Clean(targets[..i])
      invariant encounteredIds == IdSet(targets[..i])
    {
      var target := targets[i];
      var keep: bool;
      if !Truthy(target.hotspotId) {
        keep := false;
      } else if target.hotspotId.value in encounteredIds {
        keep := false;
      } else {
        encounteredIds := encounteredIds + {target.hotspotId.value};
        keep := true;
      }
      assert targets[..i + 1] == targets[..i] + [target];
      CleanStep(targets[..i], target);
      IdSetStep(targets[..i], target);
      if keep {
        kept := kept + [target];
      }
      i := i + 1;
    }
    assert targets[..i] == targets;
  }

  /** One step of the filter: the new record is a first occurrence exactly
      when it names a hotspot that the earlier records do not. */
  lemma FirstOccurrenceStep(ts: seq<Targets>, t: Targets)
    ensures IsFirstOccurrence(ts + [t], |ts|) <==> HasHotspotId(t) && t.hotspotId.value !in IdSet(ts)
  {
    var us := ts + [t];
    if HasHotspotId(t) {
      var x := t.hotspotId.value;
      if x in IdSet(ts) {
        var j :| 0 <= j < |ts| && HasHotspotId(ts[j]) && ts[j].hotspotId.value == x;
        assert us[j].hotspotId == us[|ts|].hotspotId;
      } else {
        forall j | 0 <= j < |ts| ensures us[j].hotspotId != us[|ts|].hotspotId {
          assert us[j] == ts[j];
        }
      }
    }
  }

  /** One step of the filter: the new record is appended exactly when it is
      a first occurrence. */
  lemma CleanStep(ts: seq<Targets>, t: Targets)
    ensures Clean(ts + [t]) == Clean(ts) + (if HasHotspotId(t) && t.hotspotId.value !in IdSet(ts) then [t] else [])
  {
    var us := ts + [t];
    assert us[..|us| - 1] == ts;
    FirstOccurrenceStep(ts, t);
  }

  /** One step of the filter: the set of seen ids grows by the new record's id. */
  lemma IdSetStep(ts: seq<Targets>, t: Targets)
    ensures IdSet(ts + [t]) == IdSet(ts) + (if HasHotspotId(t) then {t.hotspotId.value} else {})
  {
    var us := ts + [t];
    forall y ensures y in IdSet(us) <==> y in IdSet(ts) + (if HasHotspotId(t) then {t.hotspotId.value} else {}) {
      if y in IdSet(us) {
        var i :| 0 <= i < |us| && HasHotspotId(us[i]) && us[i].hotspotId.value == y;
        if i < |ts| {
          assert us[i] == ts[i];
        }
      }
      if y in IdSet(ts) {
        var i :| 0 <= i < |ts| && HasHotspotId(ts[i]) && ts[i].hotspotId.value == y;
        assert us[i] == ts[i];
      }
      if HasHotspotId(t) && y == t.hotspotId.value {
        assert us[|ts|] == t;
      }
    }
  }

  /** Whether record `i` is a first occurrence depends only on the records up
      to it. */
  lemma FirstOccurrencePrefix(ts: seq<Targets>, n: nat, i: nat)
    requires i < n <= |ts|
    ensures IsFirstOccurrence(ts[..n], i) <==> IsFirstOccurrence(ts, i)
  {
  }

  /** Every kept record names a hotspot. */
  lemma {:induction false} CleanHasIds(ts: seq<Targets>)
    ensures forall k :: 0 <= k < |Clean(ts)| ==> HasHotspotId(Clean(ts)[k])
  {
    if ts != [] {
      CleanHasIds(ts[..|ts| - 1]);
    }
  }

  /** Every kept record is the first occurrence of its hotspot id in the input. */
  lemma {:induction false} CleanKeepsOnlyFirsts(ts: seq<Targets>)
    ensures forall k :: 0 <= k < |Clean(ts)| ==>
      exists i :: 0 <= i < |ts| && IsFirstOccurrence(ts, i) && Clean(ts)[k] == ts[i]
  {
    if ts != [] {
      var n := |ts| - 1;
      var p := ts[..n];
      CleanKeepsOnlyFirsts(p);
      assert Clean(ts) == Clean(p) + (if IsFirstOccurrence(ts, n) then [ts[n]] else []);
      forall k | 0 <= k < |Clean(ts)|
        ensures exists i :: 0 <= i < |ts| && IsFirstOccurrence(ts, i) && Clean(ts)[k] == ts[i]
      {
        if k < |Clean(p)| {
          assert Clean(p)[k] == Clean(ts)[k];
          var i :| 0 <= i < |p| && IsFirstOccurrence(p, i) && Clean(p)[k] == p[i];
          FirstOccurrencePrefix(ts, n, i);
          assert Clean(ts)[k] == ts[i];
        } else {
          assert IsFirstOccurrence(ts, n) && Clean(ts)[k] == ts[n];
        }
      }
    } else {
      assert Clean(ts) == [];
    }
  }

  /** Every first occurrence in the input is kept. */
  lemma {:induction false} CleanKeepsAllFirsts(ts: seq<Targets>)
    ensures forall i :: 0 <= i < |ts| && IsFirstOccurrence(ts, i) ==> ts[i] in Clean(ts)
  {
    if ts != [] {
      var n := |ts| - 1;
      var p := ts[..n];
      CleanKeepsAllFirsts(p);
      forall i | 0 <= i < |ts| && IsFirstOccurrence(ts, i) ensures ts[i] in Clean(ts) {
        if i < n {
          FirstOccurrencePrefix(ts, n, i);
          assert ts[i] == p[i];
        }
      }
    }
  }

  /** No two kept records share a hotspot id. */
  lemma {:induction false} CleanUnique(ts: seq<Targets>)
    ensures forall a, b :: 0 <= a < b < |Clean(ts)| ==> Clean(ts)[a].hotspotId != Clean(ts)[b].hotspotId
  {
    if ts != [] {
      var n := |ts| - 1;
      var p := ts[..n];
      CleanUnique(p);
      CleanKeepsOnlyFirsts(p);
      var r := Clean(ts);
      if IsFirstOccurrence(ts, n) {
        assert r == Clean(p) + [ts[n]];
        forall a | 0 <= a < |Clean(p)| ensures r[a].hotspotId != ts[n].hotspotId {
          assert exists i :: 0 <= i < |p| && IsFirstOccurrence(p, i) && Clean(p)[a] == p[i];
          var i :| 0 <= i < |p| && IsFirstOccurrence(p, i) && Clean(p)[a] == p[i];
          assert r[a] == Clean(p)[a] == p[i] == ts[i];
        }
      } else {
        assert r == Clean(p);
      }
    }
  }

  /** The output is a subsequence of the input. */
  lemma {:induction false} CleanIsSubseq(ts: seq<Targets>)
    ensures Seqs.Subseq(Clean(ts), ts)
  {
    if ts != [] {
      var n := |ts| - 1;
      var p := ts[..n];
      CleanIsSubseq(p);
      assert ts == p + [ts[n]];
      assert Clean(ts) == Clean(p) + (if IsFirstOccurrence(ts, n) then [ts[n]] else []);
      if IsFirstOccurrence(ts, n) {
        Seqs.SubseqSnoc(Clean(p), p, ts[n]);
      } else {
        assert Clean(ts) == Clean(p);
        Seqs.SubseqExtend(Clean(p), p, ts[n]);
      }
    }
  }

  /** The output names exactly the hotspot ids that the input names. */
  lemma {:induction false} CleanCoversIds(ts: seq<Targets>)
    ensures IdSet(Clean(ts)) == IdSet(ts)
  {
    if ts != [] {
      var n := |ts| - 1;
      var p := ts[..n];
      CleanCoversIds(p);
      assert ts == p + [ts[n]];
      var t := ts[n];
      CleanStep(p, t);
      IdSetStep(p, t);
      if HasHotspotId(t) && t.hotspotId.value !in IdSet(p) {
        IdSetStep(Clean(p), t);
      } else {
        assert Clean(ts) == Clean(p);
      }
    }
  }

  /** A list whose records all name distinct hotspots is left as it is. */
  lemma {:induction false} CleanOfCleanList(ts: seq<Targets>)
    requires forall k :: 0 <= k < |ts| ==> HasHotspotId(ts[k])
    requires forall a, b :: 0 <= a < b < |ts| ==> ts[a].hotspotId != ts[b].hotspotId
    ensures Clean(ts) == ts
  {
    if ts != [] {
      var n := |ts| - 1;
      CleanOfCleanList(ts[..n]);
      assert IsFirstOccurrence(ts, n);
      assert ts == ts[..n] + [ts[n]];
    }
  }

  /** Cleaning twice is cleaning once. */
  lemma CleanIdempotent(ts: seq<Targets>)
    ensures Clean(Clean(ts)) == Clean(ts)
  {
    CleanHasIds(ts);
    CleanUnique(ts);
    CleanOfCleanList(Clean(ts));
  }

  /** The batch `[A, A', B, unnamed]`, where `A` and `A'` name the same
      hotspot, cleans to `[A, B]`. */
  lemma CleanExample(a: Targets, a': Targets, b: Targets, none: Targets)
    requires a.hotspotId == a'.hotspotId == Some("A") && b.hotspotId == Some("B")
    requires none.hotspotId == None
    ensures Clean([a, a', b, none]) == [a, b]
  {
    assert [a] == [] + [a];
    CleanStep([], a);
    IdSetStep([], a);
    assert [a, a'] == [a] + [a'];
    CleanStep([a], a');
    IdSetStep([a], a');
    assert [a, a', b] == [a, a'] + [b];
    CleanStep([a, a'], b);
    assert [a, a', b, none] == [a, a', b] + [none];
    CleanStep([a, a', b], none);
  }

  // The rewrite inside resetHotspotTargets.

  /** `newHotspots` is `hotspots` with `targetsId` stripped from every
      hotspot whose `id` is `id`, and every other hotspot untouched. */
  predicate IsResetRewrite(hotspots: seq<Hotspot>, id: string, newHotspots: seq<Hotspot>)
  {
    && |newHotspots| == |hotspots|
    && (forall k :: 0 <= k < |hotspots| && hotspots[k].id != id ==> newHotspots[k] == hotspots[k])
    && (forall k :: 0 <= k < |hotspots| && hotspots[k].id == id ==> newHotspots[k] == hotspots[k].(targetsId := None))
  }

  /** `prev` is the `targetsId` of the last hotspot whose `id` is `id`, and
      absent when there is none. */
  predicate IsOldTargetsId(hotspots: seq<Hotspot>, id: string, prev: Option<string>)
  {
    && ((forall k :: 0 <= k < |hotspots| ==> hotspots[k].id != id) ==> prev == None)
    && (forall k :: 0 <= k < |hotspots| && hotspots[k].id == id && (forall j :: k < j < |hotspots| ==> hotspots[j].id != id)
          ==> prev == hotspots[k].targetsId)
  }

  /** The `targetsId` left in `oldTargetsId` by the callback: that of the
      last hotspot whose `id` is `id`. */
  function LastTargetsId(hotspots: seq<Hotspot>, id: string): Option<string>
  {
    if hotspots == [] then None
    else if hotspots[|hotspots| - 1].id == id then hotspots[|hotspots| - 1].targetsId
    else LastTargetsId(hotspots[..|hotspots| - 1], id)
  }

  lemma {:induction false} LastTargetsIdSpec(hotspots: seq<Hotspot>, id: string)
    ensures IsOldTargetsId(hotspots, id, LastTargetsId(hotspots, id))
  {
    if hotspots != [] {
      var n := |hotspots| - 1;
      LastTargetsIdSpec(hotspots[..n], id);
      if hotspots[n].id != id {
        assert forall k :: 0 <= k < n ==> hotspots[..n][k] == hotspots[k];
      }
    }
  }

  /** The `map` over the trip's hotspots, whose callback records the stripped
      `targetsId` in the outer `oldTargetsId`. */
  method RewriteHotspots(hotspots: seq<Hotspot>, id: string) returns (newHotspots: seq<Hotspot>, oldTargetsId: Option<string>)
    ensures IsResetRewrite(hotspots, id, newHotspots)
    ensures oldTargetsId == LastTargetsId(hotspots, id)
  {
    oldTargetsId := None;
    newHotspots := [];
    var i := 0;
    while i < |hotspots|
      invariant 0 <= i <= |hotspots|
      invariant IsResetRewrite(hotspots[..i], id, newHotspots)
      invariant oldTargetsId == LastTargetsId(hotspots[..i], id)
    {
      assert hotspots[..i + 1][..i] == hotspots[..i];
      var it := hotspots[i];
      if it.id == id {
        oldTargetsId := it.targetsId;
        newHotspots := newHotspots + [it.(targetsId := None)];
      } else {
        newHotspots := newHotspots + [it];
      }
      i := i + 1;
    }
    assert hotspots[..i] == hotspots;
  }

  /** What `resetHotspotTargets` asks of its collaborators. */
  datatype Effect =
    | RetryDownload(hotspotId: string)
    | UpdateHotspots(tripId: string, hotspots: seq<Hotspot>)
    | DeleteTargets(targetsId: string)

  /** `resetHotspotTargets(id)`: without a trip nothing happens; otherwise the
      download is retried, the rewritten hotspot list is written back, and the
      stripped target record is deleted when there was one. */
  method ResetHotspotTargets(trip: Option<Trip>, id: string) returns (effects: seq<Effect>)
    ensures trip.None? ==> effects == []
    ensures trip.Some? ==>
      && 2 <= |effects| <= 3
      && effects[0] == RetryDownload(id)
      && effects[1].UpdateHotspots?
      && effects[1].tripId == trip.value.id
      && IsResetRewrite(trip.value.hotspots, id, effects[1].hotspots)
      && var prev := LastTargetsId(trip.value.hotspots, id);
         if Truthy(prev) then effects[2..] == [DeleteTargets(prev.value)] else |effects| == 2
  {
    if trip.None? {
      return [];
    }
    var t := trip.value;
    var newHotspots, oldTargetsId := RewriteHotspots(t.hotspots, id);
    effects := [RetryDownload(id), UpdateHotspots(t.id, newHotspots)];
    if Truthy(oldTargetsId) {
      effects := effects + [DeleteTargets(oldTargetsId.value)];
    }
  }

  /** After a reset no hotspot with that id keeps a `targetsId`, and a second
      rewrite changes nothing. */
  lemma ResetRewriteClears(hotspots: seq<Hotspot>, id: string, newHotspots: seq<Hotspot>, again: seq<Hotspot>)
    requires IsResetRewrite(hotspots, id, newHotspots)
    requires IsResetRewrite(newHotspots, id, again)
    ensures forall k :: 0 <= k < |newHotspots| && newHotspots[k].id == id ==> newHotspots[k].targetsId == None
    ensures again == newHotspots
  {
  }
}
