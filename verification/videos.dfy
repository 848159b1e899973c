/**
 * Homepage videos (models/videoModel.js, controllers/videoController.js).
 *
 * Videos carry a display `order`. Creating, moving and deleting a video
 * shift the others so that the orders stay 1..n, and the handlers that
 * unpublish try to keep at least two videos published.
 */
module Videos {
  import opened Common
  import Helper

  /** A stored video; `thumbnail` and the audit fields are left out. */
  datatype Video = Video(title: string, url: string, isActive: bool, order: int, views: int)

  type VideoStore = map<Id, Video>

  /** The fewest published videos the unpublishing handlers leave. */
  const MinPublished := 2

  const ServerError := "Internal server error"
  const Required := "Title and URL are required"
  const VideoMissing := "Video not found"
  const BadUrl := "Please provide a valid YouTube URL"
  const DeleteRefused := "Cannot delete video. At least 2 videos must be published at all times."
  const UnpublishRefused := "Cannot unpublish video. At least 2 videos must be published at all times."

  // ---------------------------------------------------------------------
  // Orders and the published count
  // ---------------------------------------------------------------------

  /** The orders are distinct and lie in 1..n, so they are a permutation of 1..n. */
  predicate Ranked(vs: VideoStore)
  {
    (forall v :: v in vs ==> 1 <= vs[v].order <= |vs|)
    && forall a, b :: a in vs && b in vs && a != b ==> vs[a].order != vs[b].order
  }

  function PublishedIds(vs: VideoStore): (g: set<Id>)
    ensures forall v :: v in g <==> v in vs && vs[v].isActive
  {
    set v | v in vs && vs[v].isActive
  }

  /** `countDocuments({ isActive: true })`. */
  function Published(vs: VideoStore): nat
  {
    |PublishedIds(vs)|
  }

  /** `findOne({}).sort({ order: -1 })`: the greatest order, if any video exists. */
  function MaxOrder(vs: VideoStore, keys: set<Id>): (r: Option<int>)
    requires keys <= vs.Keys
    ensures r.None? <==> keys == {}
    ensures r.Some? ==> (forall v :: v in keys ==> vs[v].order <= r.value) && exists v :: v in keys && vs[v].order == r.value
    decreases |keys|
  {
    if keys == {} then None
    else
      var k := Least(keys);
      var rest := MaxOrder(vs, keys - {k});
      if rest.None? || vs[k].order >= rest.value then Some(vs[k].order) else rest
  }

  lemma CardMinusOne(g: set<Id>, x: Id)
    ensures |g - {x}| >= |g| - 1
  {
    if x in g {
      assert g == (g - {x}) + {x};
    } else {
      assert g - {x} == g;
    }
  }

  lemma MapMinusCard(vs: VideoStore, id: Id)
    requires id in vs
    ensures |vs - {id}| == |vs| - 1
  {
    assert (vs - {id}).Keys == vs.Keys - {id};
  }

  // ---------------------------------------------------------------------
  // createVideo
  // ---------------------------------------------------------------------

  /**
   * The create payload. `order` 0 stands for a falsy order (absent or 0);
   * `urlMatches` is the result of the YouTube pattern test on `url`.
   */
  datatype NewVideo = NewVideo(title: string, url: string, urlMatches: bool, isActive: Option<bool>, order: int)

  /** An order at or after `k` goes up one to make room at `k`. */
  function Bumped(o: int, k: int): int
  {
    if o >= k then o + 1 else o
  }

  /** Bumping keeps distinct orders distinct and frees `k`. */
  lemma BumpedInjective(o1: int, o2: int, k: int)
    ensures o1 != o2 ==> Bumped(o1, k) != Bumped(o2, k)
    ensures Bumped(o1, k) != k
  {
  }

  /** `updateMany({ order: { $gte: k } }, { $inc: { order: 1 } })`. */
  function ShiftFrom(vs: VideoStore, k: int): (t: VideoStore)
    ensures t.Keys == vs.Keys
    ensures forall v :: v in vs ==> t[v] == vs[v].(order := Bumped(vs[v].order, k))
  {
    map v | v in vs :: vs[v].(order := Bumped(vs[v].order, k))
  }

  /** Where a new video goes: the given order, else one past the greatest, else 1. */
  function NewPosition(vs: VideoStore, order: int): (p: int)
    ensures order != 0 ==> p == order
    ensures order == 0 && vs != map[] ==> (forall v :: v in vs ==> vs[v].order < p) && exists v :: v in vs && vs[v].order == p - 1
    ensures order == 0 && vs == map[] ==> p == 1
  {
    if order != 0 then order
    else
      var m := MaxOrder(vs, vs.Keys);
      if m.None? then 1 else m.value + 1
  }

  /** The saved document: trimmed title and url, active unless told otherwise, no views. */
  function Stored(nv: NewVideo, p: int): Video
  {
    Video(Trim(nv.title), Trim(nv.url), nv.isActive.GetOr(true), p, 0)
  }

  /**
   * `createVideo`. Title and url must be non-empty and the url must pass the
   * YouTube pattern; an explicit order shifts the videos at or after it.
   * The schema trims title and url and requires them, so a title of
   * spaces fails at save, after the shift.
   */
  function CreateVideo(vs: VideoStore, nv: NewVideo, newId: Id): (out: Outcome<VideoStore, Id>)
    requires newId !in vs
    ensures nv.title == [] || nv.url == [] ==> out == Outcome(vs, Err(400, Required))
    ensures out.result.Ok? <==> nv.title != [] && nv.url != [] && nv.urlMatches && Trim(nv.title) != [] && Trim(nv.url) != []
    ensures out.result.Ok? ==>
      var p := NewPosition(vs, nv.order);
      var before := if nv.order != 0 then ShiftFrom(vs, p) else vs;
      out.result.value == newId
      && out.state == before[newId := Stored(nv, p)]
  {
    if nv.title == [] || nv.url == [] then Outcome(vs, Err(400, Required))
    else if !nv.urlMatches then Outcome(vs, Err(400, BadUrl))
    else
      var p := NewPosition(vs, nv.order);
      var shifted := if nv.order != 0 then ShiftFrom(vs, p) else vs;
      if Trim(nv.title) == [] || Trim(nv.url) == [] then Outcome(shifted, Err(500, ServerError))
      else Outcome(shifted[newId := Stored(nv, p)], Ok(newId))
  }

  /** Appending at one past the greatest order keeps the orders a permutation. */
  lemma AppendKeepsRanked(vs: VideoStore, newId: Id, w: Video)
    requires Ranked(vs) && newId !in vs && w.order == NewPosition(vs, 0)
    ensures Ranked(vs[newId := w])
  {
    var t := vs[newId := w];
    assert |t| == |vs| + 1 by {
      assert t.Keys == vs.Keys + {newId};
    }
    if vs != map[] {
      var v :| v in vs && vs[v].order == w.order - 1;
    }
  }

  /** Inserting at an order within 1..n+1 after the shift keeps the orders a permutation. */
  lemma InsertKeepsRanked(vs: VideoStore, newId: Id, w: Video)
    requires Ranked(vs) && newId !in vs && 1 <= w.order <= |vs| + 1
    ensures Ranked(ShiftFrom(vs, w.order)[newId := w])
  {
    var t := ShiftFrom(vs, w.order)[newId := w];
    assert |t| == |vs| + 1 by {
      assert t.Keys == vs.Keys + {newId};
    }
    InsertInRange(vs, newId, w);
    InsertDistinct(vs, newId, w);
  }

  lemma InsertInRange(vs: VideoStore, newId: Id, w: Video)
    requires Ranked(vs) && newId !in vs && 1 <= w.order <= |vs| + 1
    ensures var t := ShiftFrom(vs, w.order)[newId := w];
      forall v :: v in t ==> 1 <= t[v].order <= |vs| + 1
  {
    var s := ShiftFrom(vs, w.order);
    var t := s[newId := w];
    forall v | v in t
      ensures 1 <= t[v].order <= |vs| + 1
    {
      if v != newId {
        assert t[v] == s[v];
      }
    }
  }

  lemma InsertDistinct(vs: VideoStore, newId: Id, w: Video)
    requires Ranked(vs) && newId !in vs
    ensures var t := ShiftFrom(vs, w.order)[newId := w];
      forall a, b :: a in t && b in t && a != b ==> t[a].order != t[b].order
  {
    var s := ShiftFrom(vs, w.order);
    var t := s[newId := w];
    forall a, b | a in t && b in t && a != b
      ensures t[a].order != t[b].order
    {
      if a != newId && b != newId {
        assert vs[a].order != vs[b].order;
        BumpedInjective(vs[a].order, vs[b].order, w.order);
        assert t[a] == s[a] && t[b] == s[b];
      } else if a == newId {
        BumpedInjective(vs[b].order, vs[b].order, w.order);
        assert t[b] == s[b];
      } else {
        BumpedInjective(vs[a].order, vs[a].order, w.order);
        assert t[a] == s[a];
      }
    }
  }

  /** A successful create, at the end or at an order within 1..n+1, keeps the orders a permutation. */
  lemma CreateKeepsRanked(vs: VideoStore, nv: NewVideo, newId: Id)
    requires newId !in vs && Ranked(vs) && (nv.order == 0 || 1 <= nv.order <= |vs| + 1)
    requires CreateVideo(vs, nv, newId).result.Ok?
    ensures Ranked(CreateVideo(vs, nv, newId).state)
  {
    var w := Stored(nv, NewPosition(vs, nv.order));
    if nv.order == 0 {
      AppendKeepsRanked(vs, newId, w);
    } else {
      InsertKeepsRanked(vs, newId, w);
    }
  }

  /** A title of spaces passes the handler's check, shifts the others, then fails the schema. */
  lemma BlankTitleShiftsThenFails(vs: VideoStore, nv: NewVideo, newId: Id)
    requires newId !in vs && nv.order != 0 && nv.urlMatches && nv.url != [] && Trim(nv.url) != []
    requires nv.title == " "
    ensures CreateVideo(vs, nv, newId) == Outcome(ShiftFrom(vs, nv.order), Err(500, ServerError))
  {
    assert Trim(nv.title) == [] by {
      TrimOfBlank(nv.title);
    }
  }

  // ---------------------------------------------------------------------
  // updateVideo
  // ---------------------------------------------------------------------

  /** The update payload; empty strings and `None` leave a field as it is. */
  datatype VideoUpdate = VideoUpdate(title: string, url: string, urlMatches: bool, isActive: Option<bool>, order: Option<int>)

  /**
   * Where another video's order `o` goes when one video moves from order
   * `from` to order `k`: moving later, the orders in (from, k] go down one;
   * moving earlier, the orders in [k, from) go up one.
   */
  function Shifted(o: int, from: int, k: int): int
  {
    if k > from && from < o <= k then o - 1
    else if k < from && k <= o < from then o + 1
    else o
  }

  /** Distinct orders other than the moved one stay distinct, and none lands on `k`. */
  lemma ShiftedInjective(o1: int, o2: int, from: int, k: int)
    requires o1 != from && o2 != from
    ensures o1 != o2 ==> Shifted(o1, from, k) != Shifted(o2, from, k)
    ensures Shifted(o1, from, k) != k
  {
  }

  /** The shift of the other videos; the moved video itself is written afterwards. */
  function Move(vs: VideoStore, id: Id, k: int): (t: VideoStore)
    requires id in vs
    ensures t.Keys == vs.Keys && t[id] == vs[id]
    ensures forall v :: v in vs && v != id ==> t[v] == vs[v].(order := Shifted(vs[v].order, vs[id].order, k))
  {
    var from := vs[id].order;
    map v | v in vs :: if v == id then vs[v] else vs[v].(order := Shifted(vs[v].order, from, k))
  }

  /** `findByIdAndUpdate` with the fields given; trimmed title and url must stay non-empty. */
  function Patched(w: Video, up: VideoUpdate): Video
  {
    w.(title := if up.title != [] then Trim(up.title) else w.title,
       url := if up.url != [] then Trim(up.url) else w.url,
       isActive := if up.isActive.Some? then up.isActive.value else w.isActive,
       order := if up.order.Some? then up.order.value else w.order)
  }

  /**
   * `updateVideo`. An id that is not an ObjectId throws (500); a given url
   * must pass the pattern; a changed order shifts the others first. The
   * update validators refuse a title or url that trims to nothing.
   */
  function UpdateVideo(vs: VideoStore, idText: string, up: VideoUpdate): (out: Outcome<VideoStore, Video>)
    ensures Helper.GetMongoId(Some(idText)).None? ==> out == Outcome(vs, Err(500, ServerError))
    ensures out.result.Ok? ==>
      var id := Helper.GetMongoId(Some(idText)).value;
      id in vs
      && var moved := if up.order.Some? && up.order.value != vs[id].order then Move(vs, id, up.order.value) else vs;
      out.state == moved[id := Patched(vs[id], up)] && out.result.value == Patched(vs[id], up)
  {
    var id := Helper.GetMongoId(Some(idText));
    if id.None? then Outcome(vs, Err(500, ServerError))
    else if id.value !in vs then Outcome(vs, Err(404, VideoMissing))
    else if up.url != [] && !up.urlMatches then Outcome(vs, Err(400, BadUrl))
    else
      var w := vs[id.value];
      var moved := if up.order.Some? && up.order.value != w.order then Move(vs, id.value, up.order.value) else vs;
      if (up.title != [] && Trim(up.title) == []) || (up.url != [] && Trim(up.url) == []) then
        Outcome(moved, Err(500, ServerError))
      else
        Outcome(moved[id.value := Patched(w, up)], Ok(Patched(w, up)))
  }

  /** Moving a video to an order within 1..n keeps the orders a permutation. */
  lemma MoveKeepsRanked(vs: VideoStore, id: Id, k: int, w: Video)
    requires Ranked(vs) && id in vs && 1 <= k <= |vs| && w.order == k
    ensures Ranked(Move(vs, id, k)[id := w])
  {
    var m := Move(vs, id, k);
    var t := m[id := w];
    var from := vs[id].order;
    assert t.Keys == vs.Keys;
    forall v | v in t
      ensures 1 <= t[v].order <= |t|
    {
      if v != id {
        assert t[v] == m[v];
        assert vs[v].order != from;
      }
    }
    forall a, b | a in t && b in t && a != b
      ensures t[a].order != t[b].order
    {
      if a != id && b != id {
        assert vs[a].order != vs[b].order && vs[a].order != from && vs[b].order != from;
        ShiftedInjective(vs[a].order, vs[b].order, from, k);
        assert t[a] == m[a] && t[b] == m[b];
      } else if a == id {
        assert vs[b].order != from;
        ShiftedInjective(vs[b].order, vs[b].order, from, k);
        assert t[b] == m[b];
      } else {
        assert vs[a].order != from;
        ShiftedInjective(vs[a].order, vs[a].order, from, k);
        assert t[a] == m[a];
      }
    }
  }

  /** A successful update whose order, if given, lies within 1..n keeps the orders a permutation. */
  lemma UpdateKeepsRanked(vs: VideoStore, idText: string, up: VideoUpdate)
    requires Ranked(vs) && (up.order.Some? ==> 1 <= up.order.value <= |vs|)
    requires UpdateVideo(vs, idText, up).result.Ok?
    ensures Ranked(UpdateVideo(vs, idText, up).state)
  {
    var id := Helper.GetMongoId(Some(idText)).value;
    var w := Patched(vs[id], up);
    if up.order.Some? && up.order.value != vs[id].order {
      MoveKeepsRanked(vs, id, up.order.value, w);
    } else {
      assert vs[id := w].Keys == vs.Keys;
    }
  }

  /** `updateVideo` can unpublish without the two-published check. */
  lemma UpdateCanUnpublishBelowMinimum(vs: VideoStore, idText: string)
    requires Helper.GetMongoId(Some(idText)).Some? && Helper.GetMongoId(Some(idText)).value in vs
    requires vs[Helper.GetMongoId(Some(idText)).value].isActive && Published(vs) <= MinPublished
    ensures var out := UpdateVideo(vs, idText, VideoUpdate([], [], false, Some(false), None));
      out.result.Ok? && Published(out.state) < Published(vs)
  {
    var id := Helper.GetMongoId(Some(idText)).value;
    var out := UpdateVideo(vs, idText, VideoUpdate([], [], false, Some(false), None));
    assert PublishedIds(out.state) == PublishedIds(vs) - {id};
  }

  // ---------------------------------------------------------------------
  // deleteVideo and toggleVideoStatus
  // ---------------------------------------------------------------------

  /** The store after deleting `id`: the videos after its order move up one. */
  function Close(vs: VideoStore, id: Id): (t: VideoStore)
    requires id in vs
    ensures t.Keys == vs.Keys - {id}
    ensures forall v :: v in t ==> t[v] == vs[v].(order := if vs[v].order > vs[id].order then vs[v].order - 1 else vs[v].order)
  {
    var d := vs[id].order;
    map v | v in vs && v != id :: vs[v].(order := if vs[v].order > d then vs[v].order - 1 else vs[v].order)
  }

  /**
   * `deleteVideo`: a published video may not be deleted while two or fewer
   * are published; otherwise the gap it leaves is closed.
   */
  function DeleteVideo(vs: VideoStore, idText: string): (out: Outcome<VideoStore, ()>)
    ensures out.result.Err? ==> out.state == vs
    ensures out.result.Ok? <==>
      var id := Helper.GetMongoId(Some(idText));
      id.Some? && id.value in vs && (vs[id.value].isActive ==> Published(vs) > MinPublished)
    ensures out.result.Ok? ==> out.state == Close(vs, Helper.GetMongoId(Some(idText)).value)
  {
    var id := Helper.GetMongoId(Some(idText));
    if id.None? then Outcome(vs, Err(500, ServerError))
    else if id.value !in vs then Outcome(vs, Err(404, VideoMissing))
    else if vs[id.value].isActive && Published(vs) <= MinPublished then Outcome(vs, Err(400, DeleteRefused))
    else Outcome(Close(vs, id.value), Ok(()))
  }

  /** Deleting keeps the orders a permutation of 1..n−1. */
  lemma DeleteKeepsRanked(vs: VideoStore, idText: string)
    requires Ranked(vs) && DeleteVideo(vs, idText).result.Ok?
    ensures Ranked(DeleteVideo(vs, idText).state)
  {
    var id := Helper.GetMongoId(Some(idText)).value;
    var t := Close(vs, id);
    assert |t| == |vs| - 1 by {
      assert t.Keys == vs.Keys - {id};
      MapMinusCard(vs, id);
      assert |t| == |t.Keys|;
      assert |vs - {id}| == |(vs - {id}).Keys|;
      assert (vs - {id}).Keys == t.Keys;
    }
    forall a, b | a in t && b in t && a != b
      ensures t[a].order != t[b].order
    {
      assert vs[a].order != vs[b].order;
    }
    forall v | v in t
      ensures 1 <= t[v].order <= |t|
    {
      assert vs[v].order != vs[id].order;
    }
  }

  /** Deleting never leaves fewer than two published videos when there were at least two. */
  lemma DeleteKeepsMinimum(vs: VideoStore, idText: string)
    requires Published(vs) >= MinPublished
    ensures Published(DeleteVideo(vs, idText).state) >= MinPublished
  {
    var out := DeleteVideo(vs, idText);
    if out.result.Ok? {
      var id := Helper.GetMongoId(Some(idText)).value;
      var t := Close(vs, id);
      assert PublishedIds(t) == PublishedIds(vs) - {id};
    }
  }

  /**
   * `toggleVideoStatus`: any request that is not a publish (`isActive`
   * false or missing) is refused while two or fewer are published, even
   * for a video already unpublished. A missing `isActive` is dropped from
   * the update and changes nothing.
   */
  function ToggleVideo(vs: VideoStore, idText: string, isActive: Option<bool>): (out: Outcome<VideoStore, Video>)
    ensures out.result.Err? ==> out.state == vs
    ensures out.result.Ok? <==>
      var id := Helper.GetMongoId(Some(idText));
      id.Some? && id.value in vs && (isActive != Some(true) ==> Published(vs) > MinPublished)
    ensures out.result.Ok? ==>
      var id := Helper.GetMongoId(Some(idText)).value;
      out.state == vs[id := out.result.value]
      && out.result.value == vs[id].(isActive := isActive.GetOr(vs[id].isActive))
  {
    var id := Helper.GetMongoId(Some(idText));
    if id.None? then Outcome(vs, Err(500, ServerError))
    else if id.value !in vs then Outcome(vs, Err(404, VideoMissing))
    else if isActive != Some(true) && Published(vs) <= MinPublished then Outcome(vs, Err(400, UnpublishRefused))
    else
      var w := vs[id.value].(isActive := isActive.GetOr(vs[id.value].isActive));
      Outcome(vs[id.value := w], Ok(w))
  }

  /** Toggling never leaves fewer than two published videos when there were at least two. */
  lemma ToggleKeepsMinimum(vs: VideoStore, idText: string, isActive: Option<bool>)
    requires Published(vs) >= MinPublished
    ensures Published(ToggleVideo(vs, idText, isActive).state) >= MinPublished
  {
    var out := ToggleVideo(vs, idText, isActive);
    if out.result.Ok? {
      var id := Helper.GetMongoId(Some(idText)).value;
      if out.result.value.isActive {
        assert PublishedIds(out.state) == PublishedIds(vs) + {id};
      } else {
        assert PublishedIds(out.state) == PublishedIds(vs) - {id};
        CardMinusOne(PublishedIds(vs), id);
      }
    }
  }

  // ---------------------------------------------------------------------
  // incrementVideoViews
  // ---------------------------------------------------------------------

  /** `incrementVideoViews`: one more view; an unknown (valid) id succeeds and changes nothing. */
  function IncrementViews(vs: VideoStore, idText: string): (out: Outcome<VideoStore, ()>)
    ensures out.result.Err? <==> Helper.GetMongoId(Some(idText)).None?
    ensures out.state.Keys == vs.Keys
    ensures forall v :: v in vs ==>
      out.state[v] == if Some(v) == Helper.GetMongoId(Some(idText)) then vs[v].(views := vs[v].views + 1) else vs[v]
  {
    var id := Helper.GetMongoId(Some(idText));
    if id.None? then Outcome(vs, Err(500, ServerError))
    else if id.value !in vs then Outcome(vs, Ok(()))
    else Outcome(vs[id.value := vs[id.value].(views := vs[id.value].views + 1)], Ok(()))
  }

  // ---------------------------------------------------------------------
  // updateVideoOrder
  // ---------------------------------------------------------------------

  const NotArray := "videoIds must be an array"

  /** Each string of the body cast to an id; `None` where the cast fails. */
  function Cast(body: seq<string>): (ids: seq<Option<Id>>)
    ensures |ids| == |body|
    ensures forall i :: 0 <= i < |body| ==> ids[i] == Helper.GetMongoId(Some(body[i]))
  {
    seq(|body|, i requires 0 <= i < |body| => Helper.GetMongoId(Some(body[i])))
  }

  predicate Names(o: Option<Id>, v: Id)
  {
    o == Some(v)
  }

  /**
   * The orders written by `updateVideoOrder`: the video named at index i
   * gets order i + 1. Updates are applied in array order, so a video named
   * twice keeps its later position; unknown ids match nothing.
   */
  function Reorder(vs: VideoStore, ids: seq<Option<Id>>): (t: VideoStore)
    ensures t.Keys == vs.Keys
    ensures forall v :: v in vs ==> t[v] == vs[v].(order := t[v].order)
  {
    if ids == [] then vs
    else
      var before := Reorder(vs, ids[..|ids| - 1]);
      var id := ids[|ids| - 1];
      if id.Some? && id.value in before then before[id.value := before[id.value].(order := |ids|)]
      else before
  }

  /** A video gets one past the last index that names it. */
  lemma {:induction false} ReorderLastNamed(vs: VideoStore, ids: seq<Option<Id>>, v: Id, i: nat)
    requires v in vs && i < |ids| && Names(ids[i], v)
    requires forall j :: i < j < |ids| ==> !Names(ids[j], v)
    ensures Reorder(vs, ids)[v].order == i + 1
  {
    var n := |ids| - 1;
    var before := Reorder(vs, ids[..n]);
    if i == n {
      assert Reorder(vs, ids) == before[v := before[v].(order := |ids|)];
    } else {
      assert Reorder(vs, ids)[v] == before[v] by {
        assert ids[n] != Some(v);
      }
      assert ids[..n][i] == ids[i];
      forall j | i < j < n
        ensures !Names(ids[..n][j], v)
      {
        assert ids[..n][j] == ids[j];
      }
      ReorderLastNamed(vs, ids[..n], v, i);
    }
  }

  /** A video no index names keeps its document. */
  lemma {:induction false} ReorderUnnamed(vs: VideoStore, ids: seq<Option<Id>>, v: Id)
    requires v in vs
    requires forall j :: 0 <= j < |ids| ==> !Names(ids[j], v)
    ensures Reorder(vs, ids)[v] == vs[v]
  {
    if ids != [] {
      var n := |ids| - 1;
      forall j | 0 <= j < n
        ensures !Names(ids[..n][j], v)
      {
        assert ids[..n][j] == ids[j];
      }
      ReorderUnnamed(vs, ids[..n], v);
    }
  }

  /**
   * `updateVideoOrder`: anything but an array is refused; otherwise every
   * update is issued together, so an id that fails to cast turns the reply
   * into a 500 while the valid updates still land.
   */
  function ReorderVideos(vs: VideoStore, body: Option<seq<string>>): (out: Outcome<VideoStore, ()>)
    ensures body.None? ==> out == Outcome(vs, Err(400, NotArray))
    ensures body.Some? ==> out.state == Reorder(vs, Cast(body.value))
    ensures out.result.Ok? <==> body.Some? && forall i :: 0 <= i < |body.value| ==> Helper.GetMongoId(Some(body.value[i])).Some?
  {
    if body.None? then Outcome(vs, Err(400, NotArray))
    else
      var ids := Cast(body.value);
      if None in ids then Outcome(Reorder(vs, ids), Err(500, ServerError))
      else Outcome(Reorder(vs, ids), Ok(()))
  }

  /** `ids` lists every video exactly once, by valid ids. */
  predicate ListsEach(vs: VideoStore, ids: seq<Option<Id>>)
  {
    (forall i :: 0 <= i < |ids| ==> ids[i].Some? && ids[i].value in vs)
    && (forall i, j :: 0 <= i < j < |ids| ==> ids[i] != ids[j])
    && forall v {:trigger Listed(ids, v)} :: v in vs ==> Listed(ids, v)
  }

  predicate Listed(ids: seq<Option<Id>>, v: Id)
  {
    exists i :: 0 <= i < |ids| && Names(ids[i], v)
  }

  /** Distinct valid ids drawn from `keys` are no more than `keys`. */
  lemma {:induction false} DistinctNamesFit(ids: seq<Option<Id>>, keys: set<Id>)
    requires forall i :: 0 <= i < |ids| ==> ids[i].Some? && ids[i].value in keys
    requires forall i, j :: 0 <= i < j < |ids| ==> ids[i] != ids[j]
    ensures |ids| <= |keys|
    decreases |ids|
  {
    if ids != [] {
      var n := |ids| - 1;
      var x := ids[n].value;
      var rest := keys - {x};
      forall i | 0 <= i < n
        ensures ids[..n][i].Some? && ids[..n][i].value in rest
      {
        assert ids[..n][i] == ids[i];
        assert ids[i] != ids[n];
      }
      forall i, j | 0 <= i < j < n
        ensures ids[..n][i] != ids[..n][j]
      {
        assert ids[..n][i] == ids[i] && ids[..n][j] == ids[j];
      }
      DistinctNamesFit(ids[..n], rest);
    }
  }

  /** Reordering by a list naming every video once numbers them 1..n. */
  lemma ReorderRanks(vs: VideoStore, ids: seq<Option<Id>>)
    requires ListsEach(vs, ids)
    ensures Ranked(Reorder(vs, ids))
  {
    var t := Reorder(vs, ids);
    DistinctNamesFit(ids, vs.Keys);
    assert |t| == |vs| by {
      assert t.Keys == vs.Keys;
    }
    forall v | v in vs
      ensures 1 <= t[v].order <= |vs|
    {
      var i := ListedAt(vs, ids, v);
    }
    forall a, b | a in vs && b in vs && a != b
      ensures t[a].order != t[b].order
    {
      var i := ListedAt(vs, ids, a);
      var j := ListedAt(vs, ids, b);
      assert i != j;
    }
  }

  /** `updateVideoOrder` with every video listed once succeeds and numbers the videos 1..n. */
  lemma ReorderVideosRanks(vs: VideoStore, body: seq<string>)
    requires ListsEach(vs, Cast(body))
    ensures ReorderVideos(vs, Some(body)).result.Ok?
    ensures Ranked(ReorderVideos(vs, Some(body)).state)
  {
    ReorderRanks(vs, Cast(body));
  }

  /** Where a list naming every video once puts `v`. */
  lemma ListedAt(vs: VideoStore, ids: seq<Option<Id>>, v: Id) returns (i: nat)
    requires ListsEach(vs, ids) && v in vs
    ensures i < |ids| && Names(ids[i], v) && Reorder(vs, ids)[v].order == i + 1
  {
    assert Listed(ids, v);
    i :| 0 <= i < |ids| && Names(ids[i], v);
    forall j | i < j < |ids|
      ensures !Names(ids[j], v)
    {
      assert ids[i] != ids[j];
    }
    ReorderLastNamed(vs, ids, v, i);
  }

  // ---------------------------------------------------------------------
  // getPublicVideos
  // ---------------------------------------------------------------------

  /** The listing order: by `order`, ties by id. */
  predicate Precedes(vs: VideoStore, a: Id, b: Id)
    requires a in vs && b in vs
  {
    vs[a].order < vs[b].order || (vs[a].order == vs[b].order && a < b)
  }

  predicate IsFirst(vs: VideoStore, g: set<Id>, m: Id)
    requires g <= vs.Keys
  {
    m in g && forall x :: x in g && x != m ==> Precedes(vs, m, x)
  }

  lemma {:induction false} FirstExists(vs: VideoStore, g: set<Id>)
    requires g <= vs.Keys && g != {}
    ensures exists m :: IsFirst(vs, g, m)
    decreases |g|
  {
    var x :| x in g;
    if g - {x} == {} {
      assert g == {x};
      assert IsFirst(vs, g, x);
    } else {
      FirstExists(vs, g - {x});
      var m :| IsFirst(vs, g - {x}, m);
      var f := if Precedes(vs, x, m) then x else m;
      forall y | y in g && y != f
        ensures Precedes(vs, f, y)
      {
        if y != x && y != m {
          assert Precedes(vs, m, y);
        }
      }
      assert IsFirst(vs, g, f);
    }
  }

  /** The videos of `g`, sorted by the listing order. */
  function Sorted(vs: VideoStore, g: set<Id>): (r: seq<Id>)
    requires g <= vs.Keys
    ensures |r| == |g|
    ensures forall x :: x in r <==> x in g
    ensures forall i, j :: 0 <= i < j < |r| ==> Precedes(vs, r[i], r[j])
    decreases |g|
  {
    if g == {} then []
    else
      FirstExists(vs, g);
      var m :| IsFirst(vs, g, m);
      var rest := Sorted(vs, g - {m});
      assert forall j :: 0 <= j < |rest| ==> rest[j] in g - {m};
      [m] + rest
  }

  /** How many `.limit(n)` returns from `total` documents: 0 means no limit, a negative n means |n|. */
  function LimitCount(limit: int, total: nat): (c: nat)
    ensures c <= total
    ensures limit == 0 ==> c == total
    ensures limit != 0 ==> c <= Abs(limit) && (c == total || c == Abs(limit))
  {
    var n := Abs(limit);
    if n == 0 || total <= n then total else n
  }

  function Abs(x: int): nat
  {
    if x < 0 then -x else x
  }

  /** `getPublicVideos`: the first `limit` published videos (two by default) by order. */
  function PublicVideos(vs: VideoStore, limit: Option<int>): (r: seq<Id>)
    ensures |r| == LimitCount(limit.GetOr(2), Published(vs))
    ensures forall i :: 0 <= i < |r| ==> r[i] in vs && vs[r[i]].isActive
    ensures forall i, j :: 0 <= i < j < |r| ==> Precedes(vs, r[i], r[j])
    ensures forall i, v :: 0 <= i < |r| && v in vs && vs[v].isActive && v !in r ==> Precedes(vs, r[i], v)
  {
    var all := Sorted(vs, PublishedIds(vs));
    var n := LimitCount(limit.GetOr(2), |all|);
    forall i, v | 0 <= i < n && v in vs && vs[v].isActive && v !in all[..n]
      ensures Precedes(vs, all[..n][i], v)
    {
      var k :| 0 <= k < |all| && all[k] == v;
      assert all[..n][i] == all[i];
    }
    all[..n]
  }
}
