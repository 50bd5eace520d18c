/**
  The findability oracle of the tracklet linker: given the detections and
  the tracklets built from them, which objects (identified by the `ssmId` of
  their detections) could a linker find under a search configuration?

  An object is findable when the start times of its tracklets span more than
  `minEndpointTimeSeparation`, and the tracklets usable in a track for it
  (those starting at either end of that span, and support tracklets starting
  more than `minSupportToEndpointTimeSeparation` inside both ends) hold more
  than `minDetectionsPerTrack` distinct observation times.
*/
module LinkableObjects {
  import opened Detections

  /** A tracklet: the indices of its detections in the detection list. */
  datatype Tracklet = Tracklet(indices: set<nat>)

  /** The part of the linker's search configuration the oracle reads. */
  datatype LinkConfig = LinkConfig(
    minEndpointTimeSeparation: real,
    minSupportToEndpointTimeSeparation: real,
    minDetectionsPerTrack: nat)

  /** Every detection index of `t` names a detection (otherwise `at` throws). */
  predicate TrackletInRange(dets: seq<DetState>, t: Tracklet) {
    forall i :: i in t.indices ==> i < |dets|
  }

  predicate IndicesInRange(dets: seq<DetState>, tracklets: seq<Tracklet>) {
    forall k :: 0 <= k < |tracklets| ==> TrackletInRange(dets, tracklets[k])
  }

  predicate TrackletIdsInRange(tracklets: seq<Tracklet>, ks: set<nat>) {
    forall k :: k in ks ==> k < |tracklets|
  }

  function Abs(x: real): real {
    if x < 0.0 then -x else x
  }

  // ----- Least and greatest elements -----

  ghost predicate IsLeast(x: real, s: set<real>) {
    x in s && forall y :: y in s ==> x <= y
  }

  ghost predicate IsGreatest(x: real, s: set<real>) {
    x in s && forall y :: y in s ==> y <= x
  }

  lemma {:induction false} LeastExists(s: set<real>)
    requires s != {}
    ensures exists x :: IsLeast(x, s)
    decreases |s|
  {
    assert exists y :: y in s by { assert (forall y :: y !in s) ==> s == {}; }
    var y :| y in s;
    if s != {y} {
      LeastExists(s - {y});
      var x :| IsLeast(x, s - {y});
      var m := if y < x then y else x;
      forall z | z in s
        ensures m <= z
      {
        if z != y {
          assert z in s - {y};
        }
      }
      assert IsLeast(m, s);
    } else {
      assert IsLeast(y, s);
    }
  }

  lemma {:induction false} GreatestExists(s: set<real>)
    requires s != {}
    ensures exists x :: IsGreatest(x, s)
    decreases |s|
  {
    assert exists y :: y in s by { assert (forall y :: y !in s) ==> s == {}; }
    var y :| y in s;
    if s != {y} {
      GreatestExists(s - {y});
      var x :| IsGreatest(x, s - {y});
      var m := if x < y then y else x;
      forall z | z in s
        ensures z <= m
      {
        if z != y {
          assert z in s - {y};
        }
      }
      assert IsGreatest(m, s);
    } else {
      assert IsGreatest(y, s);
    }
  }

  ghost function Least(s: set<real>): (x: real)
    requires s != {}
    ensures IsLeast(x, s)
  {
    LeastExists(s);
    var x :| IsLeast(x, s); x
  }

  ghost function Greatest(s: set<real>): (x: real)
    requires s != {}
    ensures IsGreatest(x, s)
  {
    GreatestExists(s);
    var x :| IsGreatest(x, s); x
  }

  predicate IsLeastId(x: int, s: set<int>) {
    x in s && forall y :: y in s ==> x <= y
  }

  lemma {:induction false} LeastIdExists(s: set<int>)
    requires s != {}
    ensures exists x :: IsLeastId(x, s)
    decreases |s|
  {
    assert exists y :: y in s by { assert (forall y :: y !in s) ==> s == {}; }
    var y :| y in s;
    if s != {y} {
      LeastIdExists(s - {y});
      var x :| IsLeastId(x, s - {y});
      var m := if y < x then y else x;
      forall z | z in s
        ensures m <= z
      {
        if z != y {
          assert z in s - {y};
        }
      }
      assert IsLeastId(m, s);
    } else {
      assert IsLeastId(y, s);
    }
  }

  ghost function LeastId(s: set<int>): (x: int)
    requires s != {}
    ensures IsLeastId(x, s)
  {
    LeastIdExists(s);
    var x :| IsLeastId(x, s); x
  }

  lemma {:induction false} SubsetSize<T>(a: set<T>, b: set<T>)
    requires a <= b
    ensures |a| <= |b|
    decreases |b|
  {
    if b != {} {
      assert exists y :: y in b by { assert (forall y :: y !in b) ==> b == {}; }
      var y :| y in b;
      SubsetSize(a - {y}, b - {y});
      if y in a {
        assert a == (a - {y}) + {y};
      } else {
        assert a == a - {y};
      }
    } else {
      assert a == {};
    }
  }

  // ----- What the oracle computes, as definitions -----

  /** The observation times of the detections with the given indices. */
  ghost function EpochsOf(dets: seq<DetState>, indices: set<nat>): set<real>
    requires forall i :: i in indices ==> i < |dets|
  {
    set i | i in indices :: dets[i].epochMjd
  }

  /** The time of the earliest detection of `t`, or 0 when `t` has none. */
  ghost function FirstTime(dets: seq<DetState>, t: Tracklet): real
    requires TrackletInRange(dets, t)
  {
    if t.indices == {} then 0.0
    else
      assert exists i :: i in t.indices by { assert (forall i :: i !in t.indices) ==> t.indices == {}; }
      var i :| i in t.indices;
      assert dets[i].epochMjd in EpochsOf(dets, t.indices);
      Least(EpochsOf(dets, t.indices))
  }

  /** `t` holds a detection of object `id`. */
  ghost predicate HasObject(dets: seq<DetState>, t: Tracklet, id: int)
    requires TrackletInRange(dets, t)
  {
    exists i :: i in t.indices && dets[i].ssmId == id
  }

  /** The objects that have a detection in one of the first `n` tracklets. */
  ghost function ObjectsUpTo(dets: seq<DetState>, tracklets: seq<Tracklet>, n: nat): set<int>
    requires IndicesInRange(dets, tracklets) && n <= |tracklets|
  {
    set k, i | 0 <= k < n && i in tracklets[k].indices :: dets[i].ssmId as int
  }

  /** Of the first `n` tracklets, the ones that hold a detection of `id`. */
  ghost function TrackletsUpTo(dets: seq<DetState>, tracklets: seq<Tracklet>, n: nat, id: int): set<nat>
    requires IndicesInRange(dets, tracklets) && n <= |tracklets|
  {
    set k | 0 <= k < n && HasObject(dets, tracklets[k], id)
  }

  /** The objects some tracklet holds a detection of. */
  ghost function ObjectIds(dets: seq<DetState>, tracklets: seq<Tracklet>): set<int>
    requires IndicesInRange(dets, tracklets)
  {
    ObjectsUpTo(dets, tracklets, |tracklets|)
  }

  /** The tracklets that hold a detection of `id`; a tracklet mixing objects belongs to each of them. */
  ghost function TrackletsOf(dets: seq<DetState>, tracklets: seq<Tracklet>, id: int): set<nat>
    requires IndicesInRange(dets, tracklets)
  {
    TrackletsUpTo(dets, tracklets, |tracklets|, id)
  }

  /** The start times of the tracklets `ks`. */
  ghost function StartTimes(dets: seq<DetState>, tracklets: seq<Tracklet>, ks: set<nat>): set<real>
    requires IndicesInRange(dets, tracklets) && TrackletIdsInRange(tracklets, ks)
  {
    set k | k in ks :: FirstTime(dets, tracklets[k])
  }

  /**
    A tracklet starting at `start` is usable in a track whose endpoint
    tracklets start at `first` and `last`: it is an endpoint, or a support
    tracklet more than the support separation inside both ends.
  */
  predicate Usable(cfg: LinkConfig, first: real, last: real, start: real) {
    || start == first
    || start == last
    || (start - first > cfg.minSupportToEndpointTimeSeparation
        && last - start > cfg.minSupportToEndpointTimeSeparation)
  }

  /** The tracklets of `ks` usable in a track from `first` to `last`. */
  ghost function Included(dets: seq<DetState>, tracklets: seq<Tracklet>, cfg: LinkConfig,
                          ks: set<nat>, first: real, last: real): set<nat>
    requires IndicesInRange(dets, tracklets) && TrackletIdsInRange(tracklets, ks)
  {
    set k | k in ks && Usable(cfg, first, last, FirstTime(dets, tracklets[k]))
  }

  /** The distinct observation times of all detections in the tracklets `ks`. */
  ghost function DetTimes(dets: seq<DetState>, tracklets: seq<Tracklet>, ks: set<nat>): set<real>
    requires IndicesInRange(dets, tracklets) && TrackletIdsInRange(tracklets, ks)
  {
    set k, i | k in ks && i in tracklets[k].indices :: dets[i].epochMjd
  }

  /**
    An object whose tracklets are `ks` is findable: the start times span more
    than the endpoint separation, and the usable tracklets hold more than
    `minDetectionsPerTrack` distinct observation times.
  */
  ghost predicate Findable(dets: seq<DetState>, tracklets: seq<Tracklet>, cfg: LinkConfig, ks: set<nat>)
    requires IndicesInRange(dets, tracklets) && TrackletIdsInRange(tracklets, ks) && ks != {}
  {
    var starts := StartTimes(dets, tracklets, ks);
    assert exists k :: k in ks by { assert (forall k :: k !in ks) ==> ks == {}; }
    var k :| k in ks;
    assert FirstTime(dets, tracklets[k]) in starts;
    var first := Least(starts);
    var last := Greatest(starts);
    && Abs(last - first) > cfg.minEndpointTimeSeparation
    && |DetTimes(dets, tracklets, Included(dets, tracklets, cfg, ks, first, last))| > cfg.minDetectionsPerTrack
  }

  ghost predicate ObjectFindable(dets: seq<DetState>, tracklets: seq<Tracklet>, cfg: LinkConfig, id: int)
    requires IndicesInRange(dets, tracklets)
  {
    var ks := TrackletsOf(dets, tracklets, id);
    assert TrackletIdsInRange(tracklets, ks);
    ks != {} && Findable(dets, tracklets, cfg, ks)
  }

  predicate StrictlyAscending(r: seq<int>) {
    forall a, b :: 0 <= a < b < |r| ==> r[a] < r[b]
  }

  /** The findable objects among `ids`, visited in ascending order. */
  ghost function Report(dets: seq<DetState>, tracklets: seq<Tracklet>, cfg: LinkConfig, ids: set<int>): (r: seq<int>)
    requires IndicesInRange(dets, tracklets)
    ensures forall x :: x in r <==> x in ids && ObjectFindable(dets, tracklets, cfg, x)
    ensures StrictlyAscending(r)
    decreases |ids|
  {
    if ids == {} then []
    else
      var m := LeastId(ids);
      var head := if ObjectFindable(dets, tracklets, cfg, m) then [m] else [];
      var tail := Report(dets, tracklets, cfg, ids - {m});
      assert forall b :: 0 <= b < |tail| ==> m < tail[b] by {
        forall b | 0 <= b < |tail|
          ensures m < tail[b]
        {
          assert tail[b] in tail;
        }
      }
      head + tail
  }

  /**
    What `findLinkableObjects` appends: each object some tracklet holds a
    detection of and that is findable, once, in ascending order of id.
  */
  ghost function FindableObjects(dets: seq<DetState>, tracklets: seq<Tracklet>, cfg: LinkConfig): (r: seq<int>)
    requires IndicesInRange(dets, tracklets)
    ensures forall x :: x in r <==> x in ObjectIds(dets, tracklets) && ObjectFindable(dets, tracklets, cfg, x)
    ensures StrictlyAscending(r)
  {
    Report(dets, tracklets, cfg, ObjectIds(dets, tracklets))
  }

  // ----- The oracle -----

  /** The least of a non-empty set of times. */
  method MinMJD(mjds: set<real>) returns (least: real)
    requires mjds != {}
    ensures IsLeast(least, mjds)
  {
    var foundOne := false;
    var rest := mjds;
    least := 0.0;
    while rest != {}
      invariant rest <= mjds
      invariant foundOne <==> rest != mjds
      invariant foundOne ==> least in mjds && forall y :: y in mjds && y !in rest ==> least <= y
      decreases |rest|
    {
      assert exists m :: m in rest by { assert (forall m :: m !in rest) ==> rest == {}; }
      var m :| m in rest;
      if !foundOne || m < least {
        least := m;
        foundOne := true;
      }
      rest := rest - {m};
    }
  }

  /** The greatest of a non-empty set of times. */
  method MaxMJD(mjds: set<real>) returns (max: real)
    requires mjds != {}
    ensures IsGreatest(max, mjds)
  {
    var foundOne := false;
    var rest := mjds;
    max := 0.0;
    while rest != {}
      invariant rest <= mjds
      invariant foundOne <==> rest != mjds
      invariant foundOne ==> max in mjds && forall y :: y in mjds && y !in rest ==> y <= max
      decreases |rest|
    {
      assert exists m :: m in rest by { assert (forall m :: m !in rest) ==> rest == {}; }
      var m :| m in rest;
      if !foundOne || m > max {
        max := m;
        foundOne := true;
      }
      rest := rest - {m};
    }
  }

  /** Whether every detection of `t` comes from one real object; the check is disabled, so always. */
  predicate TrackletIsCorrect(dets: seq<DetState>, t: Tracklet): (r: bool)
    ensures r
  {
    true
  }

  /** The time of the earliest detection of `t`, or 0 when it has none. */
  method FirstDetectionTime(dets: seq<DetState>, t: Tracklet) returns (minSoFar: real)
    requires TrackletInRange(dets, t)
    ensures t.indices == {} ==> minSoFar == 0.0
    ensures t.indices != {} ==> IsLeast(minSoFar, EpochsOf(dets, t.indices))
    ensures minSoFar == FirstTime(dets, t)
  {
    var foundOne := false;
    minSoFar := 0.0;
    var rest := t.indices;
    ghost var earliest: nat := 0;
    while rest != {}
      invariant rest <= t.indices
      invariant foundOne <==> rest != t.indices
      invariant !foundOne ==> minSoFar == 0.0
      invariant foundOne ==> earliest in t.indices && minSoFar == dets[earliest].epochMjd
      invariant foundOne ==> forall j :: j in t.indices && j !in rest ==> minSoFar <= dets[j].epochMjd
      decreases |rest|
    {
      assert exists i :: i in rest by { assert (forall i :: i !in rest) ==> rest == {}; }
      var i :| i in rest;
      var curMJD := dets[i].epochMjd;
      if !foundOne || curMJD < minSoFar {
        foundOne := true;
        minSoFar := curMJD;
        earliest := i;
      }
      rest := rest - {i};
    }
  }

  // ----- Step lemmas for the loops -----

  lemma ObjectsStep(dets: seq<DetState>, tracklets: seq<Tracklet>, n: nat, id: int)
    requires IndicesInRange(dets, tracklets) && n < |tracklets|
    ensures id in ObjectsUpTo(dets, tracklets, n + 1)
        <==> id in ObjectsUpTo(dets, tracklets, n) || HasObject(dets, tracklets[n], id)
  {
    if id in ObjectsUpTo(dets, tracklets, n + 1) {
      var k, i :| 0 <= k < n + 1 && i in tracklets[k].indices && dets[i].ssmId as int == id;
      if k == n {
        assert HasObject(dets, tracklets[n], id);
      }
    }
    if HasObject(dets, tracklets[n], id) {
      var i :| i in tracklets[n].indices && dets[i].ssmId == id;
      assert dets[i].ssmId as int in ObjectsUpTo(dets, tracklets, n + 1);
    }
  }

  lemma TrackletsStep(dets: seq<DetState>, tracklets: seq<Tracklet>, n: nat, id: int)
    requires IndicesInRange(dets, tracklets) && n < |tracklets|
    ensures TrackletsUpTo(dets, tracklets, n + 1, id)
         == TrackletsUpTo(dets, tracklets, n, id) + (if HasObject(dets, tracklets[n], id) then {n} else {})
  {
  }

  /** An object without detections among the first `n` tracklets has no tracklet among them. */
  lemma UnseenHasNoTracklets(dets: seq<DetState>, tracklets: seq<Tracklet>, n: nat, id: int)
    requires IndicesInRange(dets, tracklets) && n <= |tracklets|
    ensures id !in ObjectsUpTo(dets, tracklets, n) ==> TrackletsUpTo(dets, tracklets, n, id) == {}
  {
    forall k | k in TrackletsUpTo(dets, tracklets, n, id)
      ensures id in ObjectsUpTo(dets, tracklets, n)
    {
      var i :| i in tracklets[k].indices && dets[i].ssmId == id;
      assert dets[i].ssmId as int in ObjectsUpTo(dets, tracklets, n);
    }
  }

  /** Every object some tracklet holds a detection of has at least one tracklet. */
  lemma ObjectsHaveTracklets(dets: seq<DetState>, tracklets: seq<Tracklet>, id: int)
    requires IndicesInRange(dets, tracklets)
    requires id in ObjectIds(dets, tracklets)
    ensures TrackletsOf(dets, tracklets, id) != {}
    ensures TrackletIdsInRange(tracklets, TrackletsOf(dets, tracklets, id))
  {
    var k, i :| 0 <= k < |tracklets| && i in tracklets[k].indices && dets[i].ssmId as int == id;
    assert k in TrackletsOf(dets, tracklets, id);
  }

  lemma EpochsAdd(dets: seq<DetState>, done: set<nat>, i: nat)
    requires forall j :: j in done ==> j < |dets|
    requires i < |dets|
    ensures EpochsOf(dets, done + {i}) == EpochsOf(dets, done) + {dets[i].epochMjd}
  {
  }

  lemma StartTimesAdd(dets: seq<DetState>, tracklets: seq<Tracklet>, done: set<nat>, k: nat)
    requires IndicesInRange(dets, tracklets) && TrackletIdsInRange(tracklets, done) && k < |tracklets|
    ensures StartTimes(dets, tracklets, done + {k})
         == StartTimes(dets, tracklets, done) + {FirstTime(dets, tracklets[k])}
  {
  }

  lemma DetTimesAdd(dets: seq<DetState>, tracklets: seq<Tracklet>, done: set<nat>, k: nat)
    requires IndicesInRange(dets, tracklets) && TrackletIdsInRange(tracklets, done) && k < |tracklets|
    ensures DetTimes(dets, tracklets, done + {k})
         == DetTimes(dets, tracklets, done) + EpochsOf(dets, tracklets[k].indices)
  {
  }

  lemma IncludedAdd(dets: seq<DetState>, tracklets: seq<Tracklet>, cfg: LinkConfig,
                    done: set<nat>, k: nat, first: real, last: real)
    requires IndicesInRange(dets, tracklets) && TrackletIdsInRange(tracklets, done) && k < |tracklets|
    ensures Included(dets, tracklets, cfg, done + {k}, first, last)
         == Included(dets, tracklets, cfg, done, first, last)
            + (if Usable(cfg, first, last, FirstTime(dets, tracklets[k])) then {k} else {})
  {
  }

  /** Findability, given the earliest and latest start times. */
  lemma FindableAt(dets: seq<DetState>, tracklets: seq<Tracklet>, cfg: LinkConfig,
                   ks: set<nat>, first: real, last: real)
    requires IndicesInRange(dets, tracklets) && TrackletIdsInRange(tracklets, ks) && ks != {}
    requires IsLeast(first, StartTimes(dets, tracklets, ks))
    requires IsGreatest(last, StartTimes(dets, tracklets, ks))
    ensures Findable(dets, tracklets, cfg, ks)
        <==> Abs(last - first) > cfg.minEndpointTimeSeparation
             && |DetTimes(dets, tracklets, Included(dets, tracklets, cfg, ks, first, last))|
                > cfg.minDetectionsPerTrack
  {
    var starts := StartTimes(dets, tracklets, ks);
    assert Least(starts) == first;
    assert Greatest(starts) == last;
  }

  /** Deciding `Findable` on the tracklets of `id` decides whether `id` is findable. */
  lemma ObjectFindableOf(dets: seq<DetState>, tracklets: seq<Tracklet>, cfg: LinkConfig, id: int, ks: set<nat>)
    requires IndicesInRange(dets, tracklets)
    requires ks == TrackletsOf(dets, tracklets, id) && ks != {}
    requires TrackletIdsInRange(tracklets, ks)
    ensures ObjectFindable(dets, tracklets, cfg, id) == Findable(dets, tracklets, cfg, ks)
  {
  }

  /** Visiting the least id first: reports it if findable, then the rest. */
  lemma ReportStep(dets: seq<DetState>, tracklets: seq<Tracklet>, cfg: LinkConfig, ids: set<int>, id: int)
    requires IndicesInRange(dets, tracklets)
    requires IsLeastId(id, ids)
    ensures Report(dets, tracklets, cfg, ids)
         == (if ObjectFindable(dets, tracklets, cfg, id) then [id] else []) + Report(dets, tracklets, cfg, ids - {id})
  {
    assert LeastId(ids) == id;
  }

  /** Appending the least id when it is findable, then reporting the rest, reports all of `ids`. */
  lemma ReportVisit(dets: seq<DetState>, tracklets: seq<Tracklet>, cfg: LinkConfig,
                    ids: set<int>, id: int, out: seq<int>)
    requires IndicesInRange(dets, tracklets)
    requires IsLeastId(id, ids)
    ensures (if ObjectFindable(dets, tracklets, cfg, id) then out + [id] else out)
            + Report(dets, tracklets, cfg, ids - {id})
         == out + Report(dets, tracklets, cfg, ids)
  {
    ReportStep(dets, tracklets, cfg, ids, id);
    var head := if ObjectFindable(dets, tracklets, cfg, id) then [id] else [];
    var report := Report(dets, tracklets, cfg, ids - {id});
    assert (out + head) + report == out + (head + report);
    if !ObjectFindable(dets, tracklets, cfg, id) {
      assert out + head == out;
    }
  }

  // ----- The oracle, continued -----

  /** Adds the observation times of the detections of `t` to `times`. */
  method InsertEpochs(dets: seq<DetState>, times: set<real>, t: Tracklet) returns (r: set<real>)
    requires TrackletInRange(dets, t)
    ensures r == times + EpochsOf(dets, t.indices)
  {
    r := times;
    var rest := t.indices;
    ghost var done: set<nat> := {};
    while rest != {}
      invariant rest <= t.indices && done == t.indices - rest
      invariant r == times + EpochsOf(dets, done)
      decreases |rest|
    {
      assert exists i :: i in rest by { assert (forall i :: i !in rest) ==> rest == {}; }
      var i :| i in rest;
      EpochsAdd(dets, done, i);
      r := r + {dets[i].epochMjd};
      rest := rest - {i};
      done := done + {i};
    }
    assert done == t.indices;
  }

  /** `byName` maps each object seen in the first `n` tracklets to its tracklets among them. */
  ghost predicate CollectedUpTo(dets: seq<DetState>, tracklets: seq<Tracklet>, byName: map<int, set<nat>>, n: nat)
    requires IndicesInRange(dets, tracklets) && n <= |tracklets|
  {
    && (forall id :: id in byName <==> id in ObjectsUpTo(dets, tracklets, n))
    && (forall id :: id in byName ==> byName[id] == TrackletsUpTo(dets, tracklets, n, id))
  }

  /** Of the detections `indices` outside `rest`, one belongs to `id`. */
  ghost predicate SeenIn(dets: seq<DetState>, indices: set<nat>, rest: set<nat>, id: int)
    requires forall i :: i in indices ==> i < |dets|
  {
    exists i :: i in indices && i !in rest && dets[i].ssmId == id
  }

  /** As `CollectedUpTo(n)`, with the detections of tracklet `n` outside `rest` also recorded. */
  ghost predicate CollectedPart(dets: seq<DetState>, tracklets: seq<Tracklet>, byName: map<int, set<nat>>,
                                n: nat, rest: set<nat>)
    requires IndicesInRange(dets, tracklets) && n < |tracklets|
  {
    var indices := tracklets[n].indices;
    && (forall id :: id in byName <==> id in ObjectsUpTo(dets, tracklets, n) || SeenIn(dets, indices, rest, id))
    && (forall id :: id in byName ==>
          byName[id] == TrackletsUpTo(dets, tracklets, n, id) + (if SeenIn(dets, indices, rest, id) then {n} else {}))
  }

  lemma CollectedPartDone(dets: seq<DetState>, tracklets: seq<Tracklet>, byName: map<int, set<nat>>, n: nat)
    requires IndicesInRange(dets, tracklets) && n < |tracklets|
    requires CollectedPart(dets, tracklets, byName, n, {})
    ensures CollectedUpTo(dets, tracklets, byName, n + 1)
  {
    forall id
      ensures id in byName <==> id in ObjectsUpTo(dets, tracklets, n + 1)
      ensures id in byName ==> byName[id] == TrackletsUpTo(dets, tracklets, n + 1, id)
    {
      ObjectsStep(dets, tracklets, n, id);
      TrackletsStep(dets, tracklets, n, id);
      assert SeenIn(dets, tracklets[n].indices, {}, id) <==> HasObject(dets, tracklets[n], id);
    }
  }

  lemma SeenInStep(dets: seq<DetState>, indices: set<nat>, rest: set<nat>, i: nat, id: int)
    requires forall j :: j in indices ==> j < |dets|
    requires i in rest && rest <= indices
    ensures SeenIn(dets, indices, rest - {i}, id) <==> SeenIn(dets, indices, rest, id) || dets[i].ssmId == id
  {
    if dets[i].ssmId == id {
      assert i in indices && i !in rest - {i};
    }
  }

  /** Recording detection `i` of tracklet `n` under its object keeps `CollectedPart`. */
  lemma CollectedPartStep(dets: seq<DetState>, tracklets: seq<Tracklet>, byName: map<int, set<nat>>,
                          n: nat, rest: set<nat>, i: nat)
    requires IndicesInRange(dets, tracklets) && n < |tracklets|
    requires i in rest && rest <= tracklets[n].indices
    requires CollectedPart(dets, tracklets, byName, n, rest)
    ensures
      var objName := dets[i].ssmId as int;
      var known := if objName in byName then byName[objName] else {};
      CollectedPart(dets, tracklets, byName[objName := known + {n}], n, rest - {i})
  {
    var objName := dets[i].ssmId as int;
    var known := if objName in byName then byName[objName] else {};
    var r := byName[objName := known + {n}];
    var indices := tracklets[n].indices;
    UnseenHasNoTracklets(dets, tracklets, n, objName);
    forall id
      ensures id in r <==> id in ObjectsUpTo(dets, tracklets, n) || SeenIn(dets, indices, rest - {i}, id)
      ensures id in r ==>
        r[id] == TrackletsUpTo(dets, tracklets, n, id) + (if SeenIn(dets, indices, rest - {i}, id) then {n} else {})
    {
      SeenInStep(dets, indices, rest, i, id);
    }
  }

  /** Records every detection of tracklet `trackletI` under its object. */
  method AddTracklet(dets: seq<DetState>, tracklets: seq<Tracklet>, byName: map<int, set<nat>>, trackletI: nat)
    returns (r: map<int, set<nat>>)
    requires IndicesInRange(dets, tracklets) && trackletI < |tracklets|
    requires CollectedUpTo(dets, tracklets, byName, trackletI)
    ensures CollectedUpTo(dets, tracklets, r, trackletI + 1)
  {
    var cur := tracklets[trackletI];
    r := byName;
    var rest := cur.indices;
    while rest != {}
      invariant rest <= cur.indices
      invariant CollectedPart(dets, tracklets, r, trackletI, rest)
      decreases |rest|
    {
      assert exists i :: i in rest by { assert (forall i :: i !in rest) ==> rest == {}; }
      var i :| i in rest;
      var objName := dets[i].ssmId as int;
      CollectedPartStep(dets, tracklets, r, trackletI, rest, i);
      var known := if objName in r then r[objName] else {};
      r := r[objName := known + {trackletI}];
      rest := rest - {i};
    }
    CollectedPartDone(dets, tracklets, r, trackletI);
  }

  /**
    The first phase of `findLinkableObjects`: the tracklets of each object
    that has a detection in some tracklet, keyed by the object's id.
  */
  method CollectObjects(dets: seq<DetState>, tracklets: seq<Tracklet>) returns (byName: map<int, set<nat>>)
    requires IndicesInRange(dets, tracklets)
    ensures byName.Keys == ObjectIds(dets, tracklets)
    ensures forall id :: id in byName ==> byName[id] == TrackletsOf(dets, tracklets, id)
  {
    byName := map[];
    var trackletI := 0;
    while trackletI != |tracklets|
      invariant 0 <= trackletI <= |tracklets|
      invariant CollectedUpTo(dets, tracklets, byName, trackletI)
    {
      if TrackletIsCorrect(dets, tracklets[trackletI]) {
        byName := AddTracklet(dets, tracklets, byName, trackletI);
      }
      trackletI := trackletI + 1;
    }
    forall id
      ensures id in byName.Keys <==> id in ObjectIds(dets, tracklets)
    {
    }
  }

  /** The start times of the tracklets `ks`. */
  method TrackletStartTimes(dets: seq<DetState>, tracklets: seq<Tracklet>, ks: set<nat>)
    returns (starts: set<real>)
    requires IndicesInRange(dets, tracklets) && TrackletIdsInRange(tracklets, ks)
    ensures starts == StartTimes(dets, tracklets, ks)
  {
    starts := {};
    var rest := ks;
    ghost var done: set<nat> := {};
    while rest != {}
      invariant rest <= ks && done == ks - rest
      invariant starts == StartTimes(dets, tracklets, done)
      decreases |rest|
    {
      assert exists k :: k in rest by { assert (forall k :: k !in rest) ==> rest == {}; }
      var k :| k in rest;
      var start := FirstDetectionTime(dets, tracklets[k]);
      StartTimesAdd(dets, tracklets, done, k);
      starts := starts + {start};
      rest := rest - {k};
      done := done + {k};
    }
    assert done == ks;
  }

  /** The distinct observation times of the tracklets of `ks` usable between `first` and `last`. */
  method IdealTrackDetTimes(dets: seq<DetState>, tracklets: seq<Tracklet>, cfg: LinkConfig,
                            ks: set<nat>, first: real, last: real)
    returns (idealTrackDetTimes: set<real>)
    requires IndicesInRange(dets, tracklets) && TrackletIdsInRange(tracklets, ks)
    ensures idealTrackDetTimes == DetTimes(dets, tracklets, Included(dets, tracklets, cfg, ks, first, last))
  {
    idealTrackDetTimes := {};
    var rest := ks;
    ghost var done: set<nat> := {};
    while rest != {}
      invariant rest <= ks && done == ks - rest
      invariant idealTrackDetTimes
             == DetTimes(dets, tracklets, Included(dets, tracklets, cfg, done, first, last))
      decreases |rest|
    {
      assert exists k :: k in rest by { assert (forall k :: k !in rest) ==> rest == {}; }
      var k :| k in rest;
      var firstObsTime := FirstDetectionTime(dets, tracklets[k]);
      IncludedAdd(dets, tracklets, cfg, done, k, first, last);
      DetTimesAdd(dets, tracklets, Included(dets, tracklets, cfg, done, first, last), k);
      if firstObsTime == first || firstObsTime == last {
        idealTrackDetTimes := InsertEpochs(dets, idealTrackDetTimes, tracklets[k]);
      } else if firstObsTime - first > cfg.minSupportToEndpointTimeSeparation
             && last - firstObsTime > cfg.minSupportToEndpointTimeSeparation {
        idealTrackDetTimes := InsertEpochs(dets, idealTrackDetTimes, tracklets[k]);
      }
      rest := rest - {k};
      done := done + {k};
    }
    assert done == ks;
  }

  /** Decides whether an object whose tracklets are `ks` is findable. */
  method EvaluateObject(dets: seq<DetState>, tracklets: seq<Tracklet>, cfg: LinkConfig, ks: set<nat>)
    returns (findable: bool)
    requires IndicesInRange(dets, tracklets) && TrackletIdsInRange(tracklets, ks) && ks != {}
    ensures findable == Findable(dets, tracklets, cfg, ks)
  {
    var trackletStartTimes := TrackletStartTimes(dets, tracklets, ks);
    assert exists k :: k in ks by { assert (forall k :: k !in ks) ==> ks == {}; }
    ghost var k :| k in ks;
    assert FirstTime(dets, tracklets[k]) in trackletStartTimes;
    var first := MinMJD(trackletStartTimes);
    var last := MaxMJD(trackletStartTimes);
    FindableAt(dets, tracklets, cfg, ks, first, last);
    if Abs(last - first) > cfg.minEndpointTimeSeparation {
      var idealTrackDetTimes := IdealTrackDetTimes(dets, tracklets, cfg, ks, first, last);
      findable := |idealTrackDetTimes| > cfg.minDetectionsPerTrack;
    } else {
      findable := false;
    }
  }

  /**
    Appends to `findableObjectNames`, in ascending order of id, every object
    that is findable under `cfg`.
  */
  method FindLinkableObjects(dets: seq<DetState>, tracklets: seq<Tracklet>, cfg: LinkConfig,
                             findableObjectNames: seq<int>) returns (out: seq<int>)
    requires IndicesInRange(dets, tracklets)
    ensures out == findableObjectNames + FindableObjects(dets, tracklets, cfg)
  {
    var byName := CollectObjects(dets, tracklets);
    out := findableObjectNames;
    var remaining := byName.Keys;
    while remaining != {}
      invariant remaining <= byName.Keys
      invariant out + Report(dets, tracklets, cfg, remaining)
             == findableObjectNames + FindableObjects(dets, tracklets, cfg)
      decreases |remaining|
    {
      LeastIdExists(remaining);
      var id :| IsLeastId(id, remaining);
      ObjectsHaveTracklets(dets, tracklets, id);
      var findable := EvaluateObject(dets, tracklets, cfg, byName[id]);
      ObjectFindableOf(dets, tracklets, cfg, id, byName[id]);
      ReportVisit(dets, tracklets, cfg, remaining, id, out);
      if findable {
        out := out + [id];
      }
      remaining := remaining - {id};
    }
  }

  // ----- Properties of the oracle -----

  /** The endpoint separation is the latest start time minus the earliest: taking its absolute value changes nothing. */
  lemma SpanIsNonNegative(starts: set<real>, first: real, last: real)
    requires IsLeast(first, starts) && IsGreatest(last, starts)
    ensures Abs(last - first) == last - first
  {
    assert first <= last;
  }

  /**
    An object with detections is reported exactly when its tracklet start
    times span more than `minEndpointTimeSeparation` and its usable
    tracklets hold more than `minDetectionsPerTrack` distinct times.
  */
  lemma FindableObjectsIff(dets: seq<DetState>, tracklets: seq<Tracklet>, cfg: LinkConfig,
                           id: int, first: real, last: real)
    requires IndicesInRange(dets, tracklets)
    requires id in ObjectIds(dets, tracklets)
    requires IsLeast(first, StartTimes(dets, tracklets, TrackletsOf(dets, tracklets, id)))
    requires IsGreatest(last, StartTimes(dets, tracklets, TrackletsOf(dets, tracklets, id)))
    ensures id in FindableObjects(dets, tracklets, cfg)
        <==> last - first > cfg.minEndpointTimeSeparation
             && |DetTimes(dets, tracklets, Included(dets, tracklets, cfg, TrackletsOf(dets, tracklets, id), first, last))|
                > cfg.minDetectionsPerTrack
  {
    var ks := TrackletsOf(dets, tracklets, id);
    ObjectsHaveTracklets(dets, tracklets, id);
    FindableAt(dets, tracklets, cfg, ks, first, last);
    SpanIsNonNegative(StartTimes(dets, tracklets, ks), first, last);
  }

  /** Every reported id is the `ssmId` of a detection in some tracklet. */
  lemma ReportedObjectsHaveDetections(dets: seq<DetState>, tracklets: seq<Tracklet>, cfg: LinkConfig, id: int)
    requires IndicesInRange(dets, tracklets)
    requires id in FindableObjects(dets, tracklets, cfg)
    ensures exists k, i :: 0 <= k < |tracklets| && i in tracklets[k].indices && dets[i].ssmId as int == id
  {
    assert id in ObjectIds(dets, tracklets);
  }

  /** The endpoint tracklets of an object always count towards its detection times. */
  lemma EndpointsIncluded(dets: seq<DetState>, tracklets: seq<Tracklet>, cfg: LinkConfig,
                          ks: set<nat>, first: real, last: real, k: nat)
    requires IndicesInRange(dets, tracklets) && TrackletIdsInRange(tracklets, ks)
    requires IsLeast(first, StartTimes(dets, tracklets, ks)) && IsGreatest(last, StartTimes(dets, tracklets, ks))
    requires k in ks
    requires FirstTime(dets, tracklets[k]) == first || FirstTime(dets, tracklets[k]) == last
    ensures k in Included(dets, tracklets, cfg, ks, first, last)
    ensures EpochsOf(dets, tracklets[k].indices) <= DetTimes(dets, tracklets, Included(dets, tracklets, cfg, ks, first, last))
  {
  }

  /** A usable tracklet mixing detections of two objects counts for each: all its detection times count for both. */
  lemma MixedTrackletCountsForEach(dets: seq<DetState>, tracklets: seq<Tracklet>, cfg: LinkConfig,
                                   k: nat, i: nat, j: nat, first: real, last: real)
    requires IndicesInRange(dets, tracklets) && k < |tracklets|
    requires i in tracklets[k].indices && j in tracklets[k].indices
    requires Usable(cfg, first, last, FirstTime(dets, tracklets[k]))
    ensures k in TrackletsOf(dets, tracklets, dets[i].ssmId as int)
    ensures k in TrackletsOf(dets, tracklets, dets[j].ssmId as int)
    ensures dets[j].epochMjd
            in DetTimes(dets, tracklets, Included(dets, tracklets, cfg, TrackletsOf(dets, tracklets, dets[i].ssmId as int), first, last))
  {
    var ks := TrackletsOf(dets, tracklets, dets[i].ssmId as int);
    assert HasObject(dets, tracklets[k], dets[i].ssmId as int);
    assert HasObject(dets, tracklets[k], dets[j].ssmId as int);
    assert k in Included(dets, tracklets, cfg, ks, first, last);
  }

  /** With a non-negative endpoint separation, an object whose tracklets all start at one time is never reported. */
  lemma SingleStartNeverFindable(dets: seq<DetState>, tracklets: seq<Tracklet>, cfg: LinkConfig, id: int, start: real)
    requires IndicesInRange(dets, tracklets)
    requires cfg.minEndpointTimeSeparation >= 0.0
    requires forall k :: k in TrackletsOf(dets, tracklets, id) ==> FirstTime(dets, tracklets[k]) == start
    ensures id !in FindableObjects(dets, tracklets, cfg)
  {
    if id in ObjectIds(dets, tracklets) {
      var ks := TrackletsOf(dets, tracklets, id);
      ObjectsHaveTracklets(dets, tracklets, id);
      var k :| k in ks;
      var starts := StartTimes(dets, tracklets, ks);
      assert start in starts;
      assert IsLeast(start, starts) && IsGreatest(start, starts);
      FindableObjectsIff(dets, tracklets, cfg, id, start, start);
    }
  }

  /** Tightening any threshold of the configuration never reports an object the looser one does not. */
  lemma StricterFindsFewer(dets: seq<DetState>, tracklets: seq<Tracklet>, strict: LinkConfig, loose: LinkConfig, id: int)
    requires IndicesInRange(dets, tracklets)
    requires strict.minEndpointTimeSeparation >= loose.minEndpointTimeSeparation
    requires strict.minSupportToEndpointTimeSeparation >= loose.minSupportToEndpointTimeSeparation
    requires strict.minDetectionsPerTrack >= loose.minDetectionsPerTrack
    requires id in FindableObjects(dets, tracklets, strict)
    ensures id in FindableObjects(dets, tracklets, loose)
  {
    var ks := TrackletsOf(dets, tracklets, id);
    ObjectsHaveTracklets(dets, tracklets, id);
    var starts := StartTimes(dets, tracklets, ks);
    var k :| k in ks;
    assert FirstTime(dets, tracklets[k]) in starts;
    var first, last := Least(starts), Greatest(starts);
    FindableObjectsIff(dets, tracklets, strict, id, first, last);
    FindableObjectsIff(dets, tracklets, loose, id, first, last);
    var tight := Included(dets, tracklets, strict, ks, first, last);
    var wide := Included(dets, tracklets, loose, ks, first, last);
    assert tight <= wide;
    DetTimesGrow(dets, tracklets, tight, wide);
    SubsetSize(DetTimes(dets, tracklets, tight), DetTimes(dets, tracklets, wide));
  }

  lemma DetTimesGrow(dets: seq<DetState>, tracklets: seq<Tracklet>, a: set<nat>, b: set<nat>)
    requires IndicesInRange(dets, tracklets) && TrackletIdsInRange(tracklets, b) && a <= b
    ensures DetTimes(dets, tracklets, a) <= DetTimes(dets, tracklets, b)
  {
  }
}
