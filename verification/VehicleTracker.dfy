/** Following vehicles from frame to frame: recent positions of each, a cache of recent frames, and the
    removal of vehicles that no cached frame mentions any more. */
module VehicleTracker {

  datatype Point = Point(x: real, y: real)

  /** A vehicle object with a centre of gravity. */
  datatype Sighting = Sighting(id: int, at: Point)

  /** A frame as the tracker sees it: the ids of all objects in its text, and its vehicles in order. */
  datatype Frame = Frame(mentioned: set<int>, sightings: seq<Sighting>)

  /** Every vehicle of a frame is found by its id in the frame's text. */
  predicate Canonical(f: Frame) { forall k :: 0 <= k < |f.sightings| ==> f.sightings[k].id in f.mentioned }

  predicate Sighted(f: Frame, id: int) { SeenIn(f.sightings, id) }

  /** The last `n` elements. A negative `history_size` becomes a huge unsigned number: no limit. */
  function Last<T>(s: seq<T>, n: int): (r: seq<T>)
    ensures 0 <= n ==> |r| <= n
  {
    if n < 0 || |s| <= n then s else s[|s| - n..]
  }

  lemma {:induction false} LastStep<T>(s: seq<T>, x: T, n: int)
    ensures var r := Last(s, n) + [x];
            Last(s + [x], n) == if 0 <= n < |r| then r[1..] else r
  {}

  // ---------- Steps on values ----------

  type Tracks = map<int, seq<Point>>

  function History(t: Tracks, id: int): seq<Point> { if id in t then t[id] else [] }

  /** One sighting: the position is appended, and the oldest dropped if there are too many. */
  function Noted(t: Tracks, s: Sighting, n: int): Tracks
  {
    var r := History(t, s.id) + [s.at];
    t[s.id := if 0 <= n < |r| then r[1..] else r]
  }

  function AllNoted(t: Tracks, ss: seq<Sighting>, n: int): Tracks
  {
    if ss == [] then t else Noted(AllNoted(t, ss[..|ss| - 1], n), ss[|ss| - 1], n)
  }

  lemma {:induction false} AllNotedStart(t: Tracks, ss: seq<Sighting>, n: int)
    ensures AllNoted(t, ss[..0], n) == t
  {}

  lemma {:induction false} AllNotedStep(t: Tracks, ss: seq<Sighting>, k: nat, n: int)
    requires k < |ss|
    ensures AllNoted(t, ss[..k + 1], n) == Noted(AllNoted(t, ss[..k], n), ss[k], n)
  {
    hide Noted;
    assert ss[..k + 1][..k] == ss[..k];
  }

  predicate InCache(cache: seq<Frame>, id: int) { exists k :: 0 <= k < |cache| && id in cache[k].mentioned }

  function Swept(t: Tracks, f: Frame, cache: seq<Frame>): Tracks
  {
    map id | id in t && (Sighted(f, id) || InCache(cache, id)) :: t[id]
  }

  function Updated(t: Tracks, f: Frame, cache: seq<Frame>, n: int): Tracks { Swept(AllNoted(t, f.sightings, n), f, cache) }

  /** The tracks after a run of frames. */
  function Run(frames: seq<Frame>, cacheSize: nat, historySize: int): Tracks
  {
    if frames == [] then map[]
    else
      Updated(Run(frames[..|frames| - 1], cacheSize, historySize), frames[|frames| - 1], Last(frames, cacheSize), historySize)
  }

  // ---------- The tracker ----------

  method Pick<T(==)>(s: set<T>) returns (x: T)
    requires s != {}
    ensures x in s
  {
    x :| x in s;
  }

  predicate SeenIn(ss: seq<Sighting>, id: int) { exists k :: 0 <= k < |ss| && ss[k].id == id }

  lemma {:induction false} SeenInStep(ss: seq<Sighting>, k: nat, id: int)
    requires k < |ss|
    ensures SeenIn(ss[..k + 1], id) <==> SeenIn(ss[..k], id) || ss[k].id == id
  {
    if SeenIn(ss[..k], id) {
      var j :| 0 <= j < k && ss[..k][j].id == id;
      assert ss[..k + 1][j].id == id;
    }
    if ss[k].id == id { assert ss[..k + 1][k].id == id; }
    if SeenIn(ss[..k + 1], id) {
      var j :| 0 <= j < k + 1 && ss[..k + 1][j].id == id;
      assert j < k ==> ss[..k][j].id == id;
    }
  }

  class Tracker {
    const cacheSize: nat
    const historySize: int
    var tracks: Tracks
    var cache: seq<Frame>
    ghost var frames: seq<Frame>

    /** The cache holds the last frames, and the tracks are those of all frames so far. */
    ghost predicate Valid()
      reads this
    {
      cache == Last(frames, cacheSize) && tracks == Run(frames, cacheSize, historySize)
    }

    constructor (cacheSize: nat, historySize: int)
      ensures Valid() && frames == [] && this.cacheSize == cacheSize && this.historySize == historySize
    {
      this.cacheSize, this.historySize := cacheSize, historySize;
      tracks, cache, frames := map[], [], [];
    }

    /** A new frame enters the cache before the vehicles are updated. */
    method ProcessFrame(f: Frame)
      requires Valid()
      modifies this
      ensures Valid() && frames == old(frames) + [f]
    {
      hide Updated, Run;
      LastStep(frames, f, cacheSize);
      RunStep(frames, f, cacheSize, historySize);
      cache := cache + [f];
      if |cache| > cacheSize {
        cache := cache[1..];
      }
      frames := frames + [f];
      UpdateVehiclePositions(f);
    }

    method UpdateVehiclePositions(f: Frame)
      modifies this`tracks
      ensures tracks == Updated(old(tracks), f, cache, historySize)
    {
      hide SeenIn, Swept, AllNoted;
      AllNotedStart(tracks, f.sightings, historySize);
      var seen: set<int> := {};
      NothingSeen();
      ghost var before := tracks;
      for k := 0 to |f.sightings|
        invariant tracks == AllNoted(before, f.sightings[..k], historySize)
        invariant forall id :: id in seen <==> SeenIn(f.sightings[..k], id)
      {
        var s := f.sightings[k];
        forall id ensures SeenIn(f.sightings[..k + 1], id) <==> SeenIn(f.sightings[..k], id) || s.id == id {
          SeenInStep(f.sightings, k, id);
        }
        AllNotedStep(before, f.sightings, k, historySize);
        seen := seen + {s.id};
        var history := History(tracks, s.id) + [s.at];
        if historySize >= 0 && |history| > historySize {
          history := history[1..];
        }
        tracks := tracks[s.id := history];
      }
      assert f.sightings[..|f.sightings|] == f.sightings;
      Sweep(f, seen);
    }

    /** Erases the vehicles that were not seen in this frame and that no cached frame mentions. */
    method Sweep(f: Frame, seen: set<int>)
      requires forall id :: id in seen <==> Sighted(f, id)
      modifies this`tracks
      ensures tracks == Swept(old(tracks), f, cache)
    {
      ghost var before := tracks;
      var left := tracks.Keys;
      while left != {}
        invariant left <= before.Keys
        invariant forall id :: id in tracks <==>
          id in before && (id in left || Sighted(f, id) || InCache(cache, id))
        invariant forall id :: id in tracks ==> tracks[id] == before[id]
        decreases left
      {
        var id := Pick(left);
        if id !in seen {
          var found := FoundInCache(id);
          if !found {
            tracks := tracks - {id};
          }
        }
        left := left - {id};
      }
      assert forall id :: id in tracks <==> id in Swept(before, f, cache);
      assert tracks == Swept(before, f, cache);
    }

    method FoundInCache(id: int) returns (found: bool)
      ensures found <==> InCache(cache, id)
    {
      for k := 0 to |cache|
        invariant forall j :: 0 <= j < k ==> id !in cache[j].mentioned
      {
        if id in cache[k].mentioned {
          return true;
        }
      }
      found := false;
    }
  }

  lemma {:induction false} RunStep(frames: seq<Frame>, f: Frame, cacheSize: nat, historySize: int)
    ensures Run(frames + [f], cacheSize, historySize)
         == Updated(Run(frames, cacheSize, historySize), f, Last(frames + [f], cacheSize), historySize)
  {
    hide Updated, Last;
    assert (frames + [f])[..|frames|] == frames;
  }

  // ---------- Which vehicles are tracked ----------

  lemma {:induction false} AllNotedKeys(t: Tracks, ss: seq<Sighting>, n: int, id: int)
    ensures id in AllNoted(t, ss, n) <==> id in t || SeenIn(ss, id)
  {
    hide SeenIn;
    if ss == [] {
      NothingSeen();
    } else {
      var m := |ss| - 1;
      AllNotedKeys(t, ss[..m], n, id);
      SeenInStep(ss, m, id);
      assert ss[..m + 1] == ss;
    }
  }

  lemma {:induction false} NothingSeen()
    ensures forall id :: !SeenIn([], id)
  {}

  /** A vehicle is tracked after a frame exactly if it was seen in it, or was tracked before and is
      mentioned by a cached frame. */
  lemma {:induction false} TrackedStep(frames: seq<Frame>, cacheSize: nat, historySize: int, id: int)
    requires frames != []
    ensures id in Run(frames, cacheSize, historySize) <==>
            || Sighted(frames[|frames| - 1], id)
            || (id in Run(frames[..|frames| - 1], cacheSize, historySize) && InCache(Last(frames, cacheSize), id))
  {
    hide InCache, Last;
    var before, f := Run(frames[..|frames| - 1], cacheSize, historySize), frames[|frames| - 1];
    AllNotedKeys(before, f.sightings, historySize, id);
    hide AllNoted;
  }

  /** Some frame among the last ones up to frame `m` mentions the vehicle. */
  ghost predicate RecentlyMentioned(frames: seq<Frame>, cacheSize: nat, m: nat, id: int)
    requires m < |frames|
  {
    InCache(Last(frames[..m + 1], cacheSize), id)
  }

  /** The vehicle was seen in frame `k`, and after every later frame some cached frame mentioned it. */
  ghost predicate FollowedSince(frames: seq<Frame>, cacheSize: nat, k: nat, id: int)
  {
    && k < |frames| && Sighted(frames[k], id)
    && forall m :: k < m < |frames| ==> RecentlyMentioned(frames, cacheSize, m, id)
  }

  lemma {:induction false} FollowedShorter(frames: seq<Frame>, cacheSize: nat, k: nat, id: int)
    requires frames != [] && k < |frames| - 1
    ensures FollowedSince(frames, cacheSize, k, id) <==>
            FollowedSince(frames[..|frames| - 1], cacheSize, k, id) && InCache(Last(frames, cacheSize), id)
  {
    hide InCache, Last;
    var n := |frames| - 1;
    forall m | k < m < n
      ensures RecentlyMentioned(frames, cacheSize, m, id) == RecentlyMentioned(frames[..n], cacheSize, m, id)
    {
      assert frames[..n][..m + 1] == frames[..m + 1];
    }
    assert frames[..n + 1] == frames;
    assert RecentlyMentioned(frames, cacheSize, n, id) == InCache(Last(frames, cacheSize), id);
    hide RecentlyMentioned;
  }

  /** Over every run: a vehicle is tracked exactly if it was seen, and after every frame since then the
      cache held a frame that mentions it. */
  lemma {:induction false} TrackedIff(frames: seq<Frame>, cacheSize: nat, historySize: int, id: int)
    ensures id in Run(frames, cacheSize, historySize) <==> exists k: nat :: FollowedSince(frames, cacheSize, k, id)
  {
    hide Run, InCache, Last, FollowedSince, Sighted;
    if frames == [] {
      NobodyTracked(cacheSize, historySize);
      NobodyFollowed(cacheSize, id);
    } else {
      var n := |frames| - 1;
      TrackedIff(frames[..n], cacheSize, historySize, id);
      TrackedStep(frames, cacheSize, historySize, id);
      if Sighted(frames[n], id) {
        FollowedNow(frames, cacheSize, id);
      } else if id in Run(frames, cacheSize, historySize) {
        var k: nat :| FollowedSince(frames[..n], cacheSize, k, id);
        FollowedWithin(frames[..n], cacheSize, k, id);
        FollowedShorter(frames, cacheSize, k, id);
      } else if exists k: nat :: FollowedSince(frames, cacheSize, k, id) {
        var k: nat :| FollowedSince(frames, cacheSize, k, id);
        FollowedWithin(frames, cacheSize, k, id);
        FollowedShorter(frames, cacheSize, k, id);
      }
    }
  }

  lemma {:induction false} NobodyTracked(cacheSize: nat, historySize: int)
    ensures Run([], cacheSize, historySize) == map[]
  {}

  lemma {:induction false} NobodyFollowed(cacheSize: nat, id: int)
    ensures forall k: nat :: !FollowedSince([], cacheSize, k, id)
  {}

  lemma {:induction false} FollowedNow(frames: seq<Frame>, cacheSize: nat, id: int)
    requires frames != [] && Sighted(frames[|frames| - 1], id)
    ensures FollowedSince(frames, cacheSize, |frames| - 1, id)
  {
    hide InCache, Last, Sighted;
  }

  lemma {:induction false} FollowedWithin(frames: seq<Frame>, cacheSize: nat, k: nat, id: int)
    requires FollowedSince(frames, cacheSize, k, id)
    ensures k < |frames| && Sighted(frames[k], id)
  {}

  // ---------- Tracked vehicles and the cache ----------

  ghost predicate AllMentioned(t: Tracks, cache: seq<Frame>) { forall id :: id in t ==> InCache(cache, id) }

  /** After a frame every tracked vehicle is mentioned by a cached frame exactly if those just seen are. */
  lemma {:induction false} TrackedMentionedIff(frames: seq<Frame>, cacheSize: nat, historySize: int)
    requires frames != []
    ensures var cache := Last(frames, cacheSize);
            AllMentioned(Run(frames, cacheSize, historySize), cache) <==>
            forall id :: Sighted(frames[|frames| - 1], id) ==> InCache(cache, id)
  {
    hide Run, InCache, Last, Sighted;
    var tracks, cache := Run(frames, cacheSize, historySize), Last(frames, cacheSize);
    forall id
      ensures id in tracks && !InCache(cache, id) ==> Sighted(frames[|frames| - 1], id)
      ensures Sighted(frames[|frames| - 1], id) ==> id in tracks
    {
      TrackedStep(frames, cacheSize, historySize, id);
    }
  }

  /** With room for one frame in the cache, and vehicles that are found by their ids in their own frame,
      every tracked vehicle is mentioned by a cached frame. Earlier frames do not matter. */
  lemma {:induction false} TrackedMentioned(frames: seq<Frame>, cacheSize: nat, historySize: int)
    requires cacheSize >= 1 && (frames != [] ==> Canonical(frames[|frames| - 1]))
    ensures AllMentioned(Run(frames, cacheSize, historySize), Last(frames, cacheSize))
  {
    hide Run, InCache, Last, Sighted;
    if frames == [] {
      NobodyTracked(cacheSize, historySize);
    } else {
      TrackedMentionedIff(frames, cacheSize, historySize);
      forall id | Sighted(frames[|frames| - 1], id) ensures InCache(Last(frames, cacheSize), id) {
        SightedIsMentioned(frames, cacheSize, id);
      }
    }
  }

  lemma {:induction false} SightedIsMentioned(frames: seq<Frame>, cacheSize: nat, id: int)
    requires frames != [] && cacheSize >= 1 && Canonical(frames[|frames| - 1]) && Sighted(frames[|frames| - 1], id)
    ensures InCache(Last(frames, cacheSize), id)
  {
    var recent := Last(frames, cacheSize);
    assert recent[|recent| - 1] == frames[|frames| - 1];
  }

  /** The id 7 of an object written `007`: it is tracked, but a search of the text for `7` does not find it. */
  function PaddedFrame(): Frame { Frame({}, [Sighting(7, Point(0.0, 0.0))]) }

  /** Such a frame leaves a tracked vehicle that no cached frame mentions, and the next frame without the
      vehicle erases it, however large the cache. */
  lemma {:induction false} PaddedIdUnmentioned(cacheSize: nat, historySize: int)
    ensures 7 in Run([PaddedFrame()], cacheSize, historySize)
    ensures !AllMentioned(Run([PaddedFrame()], cacheSize, historySize), Last([PaddedFrame()], cacheSize))
    ensures 7 !in Run([PaddedFrame(), Frame({}, [])], cacheSize, historySize)
  {
    hide Run;
    var f, g := PaddedFrame(), Frame({}, []);
    assert f.sightings[0].id == 7;
    TrackedStep([f], cacheSize, historySize, 7);
    NoMentions([f], cacheSize, 7);
    TrackedStep([f, g], cacheSize, historySize, 7);
    NoMentions([f, g], cacheSize, 7);
  }

  lemma {:induction false} NoMentions(frames: seq<Frame>, cacheSize: nat, id: int)
    requires forall k :: 0 <= k < |frames| ==> id !in frames[k].mentioned
    ensures !InCache(Last(frames, cacheSize), id)
  {
    var recent := Last(frames, cacheSize);
    assert forall k :: 0 <= k < |recent| ==> recent[k] == frames[|frames| - |recent| + k];
  }

  // ---------- What is remembered of them ----------

  /** The positions of one vehicle, in order. */
  function Positions(ss: seq<Sighting>, id: int): seq<Point>
  {
    if ss == [] then []
    else
      var s := ss[|ss| - 1];
      Positions(ss[..|ss| - 1], id) + (if s.id == id then [s.at] else [])
  }

  function PositionsIn(frames: seq<Frame>, id: int): seq<Point>
  {
    if frames == [] then []
    else PositionsIn(frames[..|frames| - 1], id) + Positions(frames[|frames| - 1].sightings, id)
  }

  lemma {:induction false} NotedHistory(t: Tracks, s: Sighting, n: int, id: int, full: seq<Point>)
    requires History(t, id) == Last(full, n)
    ensures History(Noted(t, s, n), id) == Last(full + (if s.id == id then [s.at] else []), n)
  {
    hide Last;
    if s.id == id {
      LastStep(full, s.at, n);
    } else {
      assert full + [] == full;
    }
  }

  lemma {:induction false} AllNotedHistory(t: Tracks, ss: seq<Sighting>, n: int, id: int, full: seq<Point>)
    requires History(t, id) == Last(full, n)
    ensures History(AllNoted(t, ss, n), id) == Last(full + Positions(ss, id), n)
  {
    hide Last, Noted;
    if ss == [] {
      assert full + [] == full;
    } else {
      var m := |ss| - 1;
      var earlier := full + Positions(ss[..m], id);
      AllNotedHistory(t, ss[..m], n, id, full);
      NotedHistory(AllNoted(t, ss[..m], n), ss[m], n, id, earlier);
      assert earlier + (if ss[m].id == id then [ss[m].at] else []) == full + Positions(ss, id);
    }
  }

  /** The vehicle was not tracked before frame `c`, and has been ever since. */
  ghost predicate TrackedFrom(frames: seq<Frame>, cacheSize: nat, historySize: int, id: int, c: nat)
  {
    && c < |frames| && id !in Run(frames[..c], cacheSize, historySize)
    && forall m :: c < m <= |frames| ==> id in Run(frames[..m], cacheSize, historySize)
  }

  lemma {:induction false} TrackedLonger(frames: seq<Frame>, cacheSize: nat, historySize: int, id: int, c: nat)
    requires frames != [] && id in Run(frames, cacheSize, historySize)
    requires TrackedFrom(frames[..|frames| - 1], cacheSize, historySize, id, c)
          || (c == |frames| - 1 && id !in Run(frames[..c], cacheSize, historySize))
    ensures TrackedFrom(frames, cacheSize, historySize, id, c)
  {
    hide Run;
    var n := |frames| - 1;
    assert frames[..n + 1] == frames;
    if c < n { assert frames[..n][..c] == frames[..c]; }
    forall m | c < m <= n ensures id in Run(frames[..m], cacheSize, historySize) {
      assert frames[..n][..m] == frames[..m];
    }
  }

  lemma {:induction false} RunHistory(frames: seq<Frame>, cacheSize: nat, historySize: int, id: int, full: seq<Point>)
    requires frames != [] && id in Run(frames, cacheSize, historySize)
    requires History(Run(frames[..|frames| - 1], cacheSize, historySize), id) == Last(full, historySize)
    ensures Run(frames, cacheSize, historySize)[id] == Last(full + Positions(frames[|frames| - 1].sightings, id), historySize)
  {
    hide Last, Noted, InCache, AllNoted;
    AllNotedHistory(Run(frames[..|frames| - 1], cacheSize, historySize), frames[|frames| - 1].sightings, historySize, id, full);
  }

  /** Over every run: the history of a tracked vehicle is the last `historySize` of all positions seen
      since it was last taken up. */
  lemma {:induction false} HistorySince(frames: seq<Frame>, cacheSize: nat, historySize: int, id: int) returns (c: nat)
    requires id in Run(frames, cacheSize, historySize)
    ensures TrackedFrom(frames, cacheSize, historySize, id, c)
    ensures Run(frames, cacheSize, historySize)[id] == Last(PositionsIn(frames[c..], id), historySize)
  {
    hide Run, Last, TrackedFrom, Positions;
    NobodyTracked(cacheSize, historySize);
    assert frames != [];
    var n := |frames| - 1;
    var before, f := frames[..n], frames[n];
    if id in Run(before, cacheSize, historySize) {
      c := HistorySince(before, cacheSize, historySize, id);
      TrackedBefore(before, cacheSize, historySize, id, c);
      RunHistory(frames, cacheSize, historySize, id, PositionsIn(before[c..], id));
      assert frames[c..] == before[c..] + [f];
    } else {
      c := n;
      LastOfNothing(historySize);
      RunHistory(frames, cacheSize, historySize, id, []);
      assert frames[c..] == [] + [f];
    }
    PositionsMore(frames[c..n], f, id);
    TrackedLonger(frames, cacheSize, historySize, id, c);
  }

  lemma {:induction false} TrackedBefore(frames: seq<Frame>, cacheSize: nat, historySize: int, id: int, c: nat)
    requires TrackedFrom(frames, cacheSize, historySize, id, c)
    ensures c < |frames|
  {}

  lemma {:induction false} LastOfNothing(n: int)
    ensures Last<Point>([], n) == []
  {}

  lemma {:induction false} PositionsMore(frames: seq<Frame>, f: Frame, id: int)
    ensures PositionsIn(frames + [f], id) == PositionsIn(frames, id) + Positions(f.sightings, id)
  {
    hide Positions;
    assert (frames + [f])[..|frames|] == frames;
  }
}
