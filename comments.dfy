/**
 * The two comment phases of ljdump.py: the comment-meta pagination
 * (ljdump.py:259-293) and the comment-body merge (ljdump.py:295-341), stated
 * as functions of the pages the export service returns. `Archiver` runs the
 * same phases as loops over its fields and is proved to follow these
 * definitions.
 */
module Comments {
  import opened Wrappers
  import Markup

  // ---------------------------------------------------------------------
  // Comment meta

  /** What `comment.meta` keeps for a comment id. */
  datatype Meta = Meta(posterid: string, state: string)

  /** A `<comment>` element of a meta page, its `id` attribute already read as an integer. */
  datatype MetaRecord = MetaRecord(id: int, posterid: string, state: string)

  /** A `<usermap>` element of a meta page. */
  datatype UserRecord = UserRecord(id: string, user: string)

  /**
   * The reply to one `get=comment_meta` request: a failed request or
   * unparsable reply, or a page with its comments, its users and its declared
   * `<maxid>` (None when the page has none, or its text is not an integer).
   */
  datatype MetaFetch =
    | MetaFailed
    | MetaPage(comments: seq<MetaRecord>, users: seq<UserRecord>, maxid: Option<int>)

  /** Why a phase loop ended. */
  datatype Stop =
    | ReachedMax  // maxid caught up with the bound
    | FetchFailed // a request failed; the loop breaks
    | Crashed     // an exception escapes and the program ends

  /** The meta cache after the records of a page, in page order. */
  function CacheMeta(cache: map<int, Meta>, recs: seq<MetaRecord>): map<int, Meta>
  {
    if recs == [] then cache
    else
      var r := recs[|recs| - 1];
      CacheMeta(cache, recs[..|recs| - 1])[r.id := Meta(r.posterid, r.state)]
  }

  /** The high-water mark after the records of a page. */
  function MaxOf(maxid: int, recs: seq<MetaRecord>): int
  {
    if recs == [] then maxid
    else
      var m := MaxOf(maxid, recs[..|recs| - 1]);
      var id := recs[|recs| - 1].id;
      if id > m then id else m
  }

  /** The user map after the user records of a page, in page order. */
  function MapUsers(usermap: map<string, string>, users: seq<UserRecord>): map<string, string>
  {
    if users == [] then usermap
    else
      var u := users[|users| - 1];
      MapUsers(usermap, users[..|users| - 1])[u.id := u.user]
  }

  datatype MetaState = MetaState(maxid: int, metacache: map<int, Meta>, usermap: map<string, string>)

  /** One page applied to the meta state. */
  function MetaPageStep(s: MetaState, p: MetaFetch): MetaState
    requires p.MetaPage?
  {
    MetaState(MaxOf(s.maxid, p.comments), CacheMeta(s.metacache, p.comments), MapUsers(s.usermap, p.users))
  }

  /**
   * The meta loop over the replies to its successive requests; a request
   * beyond the given replies fails.
   */
  function MetaRun(s: MetaState, pages: seq<MetaFetch>): (MetaState, Stop)
    decreases |pages|
  {
    if pages == [] || pages[0].MetaFailed? then (s, FetchFailed)
    else
      var t := MetaPageStep(s, pages[0]);
      if pages[0].maxid.None? then (t, Crashed)
      else if t.maxid >= pages[0].maxid.value then (t, ReachedMax)
      else MetaRun(t, pages[1..])
  }

  /** The high-water mark is the largest of the old mark and the ids of the page. */
  lemma {:induction false} MaxOfIsMax(maxid: int, recs: seq<MetaRecord>)
    ensures MaxOf(maxid, recs) >= maxid
    ensures forall i :: 0 <= i < |recs| ==> MaxOf(maxid, recs) >= recs[i].id
    ensures MaxOf(maxid, recs) == maxid || exists i :: 0 <= i < |recs| && recs[i].id == MaxOf(maxid, recs)
  {
    if recs != [] {
      var init := recs[..|recs| - 1];
      MaxOfIsMax(maxid, init);
      assert forall i :: 0 <= i < |init| ==> init[i] == recs[i];
    }
  }

  /**
   * Every record overwrites the cache entry for its id: an id is cached iff
   * it was before or a record has it, and the last record for it wins.
   */
  lemma {:induction false} CacheMetaLastWins(cache: map<int, Meta>, recs: seq<MetaRecord>, id: int)
    ensures id in CacheMeta(cache, recs) <==>
              id in cache || exists i :: 0 <= i < |recs| && recs[i].id == id
    ensures forall i :: 0 <= i < |recs| && recs[i].id == id && (forall j :: i < j < |recs| ==> recs[j].id != id)
                        ==> id in CacheMeta(cache, recs)
                            && CacheMeta(cache, recs)[id] == Meta(recs[i].posterid, recs[i].state)
    ensures (forall i :: 0 <= i < |recs| ==> recs[i].id != id) && id in cache
            ==> id in CacheMeta(cache, recs) && CacheMeta(cache, recs)[id] == cache[id]
  {
    if recs != [] {
      var init := recs[..|recs| - 1];
      CacheMetaLastWins(cache, init, id);
      assert forall i :: 0 <= i < |init| ==> init[i] == recs[i];
    }
  }

  /** Every user record overwrites the map entry for its id; the last one wins. */
  lemma {:induction false} MapUsersLastWins(usermap: map<string, string>, users: seq<UserRecord>, id: string)
    ensures id in MapUsers(usermap, users) <==>
              id in usermap || exists i :: 0 <= i < |users| && users[i].id == id
    ensures forall i :: 0 <= i < |users| && users[i].id == id && (forall j :: i < j < |users| ==> users[j].id != id)
                        ==> id in MapUsers(usermap, users) && MapUsers(usermap, users)[id] == users[i].user
    ensures (forall i :: 0 <= i < |users| ==> users[i].id != id) && id in usermap
            ==> id in MapUsers(usermap, users) && MapUsers(usermap, users)[id] == usermap[id]
  {
    if users != [] {
      var init := users[..|users| - 1];
      MapUsersLastWins(usermap, init, id);
      assert forall i :: 0 <= i < |init| ==> init[i] == users[i];
    }
  }

  lemma {:induction false} CacheMetaKeys(cache: map<int, Meta>, recs: seq<MetaRecord>)
    ensures cache.Keys <= CacheMeta(cache, recs).Keys
    ensures forall id :: id in CacheMeta(cache, recs) ==> id in cache || exists i :: 0 <= i < |recs| && recs[i].id == id
  {
    if recs != [] {
      var init := recs[..|recs| - 1];
      CacheMetaKeys(cache, init);
      assert forall i :: 0 <= i < |init| ==> init[i] == recs[i];
    }
  }

  lemma {:induction false} MapUsersKeys(usermap: map<string, string>, users: seq<UserRecord>)
    ensures usermap.Keys <= MapUsers(usermap, users).Keys
  {
    if users != [] {
      MapUsersKeys(usermap, users[..|users| - 1]);
    }
  }

  /**
   * The meta loop never lowers the high-water mark and never forgets a cached
   * comment or a known user.
   */
  lemma {:induction false} MetaRunMonotone(s: MetaState, pages: seq<MetaFetch>)
    ensures MetaRun(s, pages).0.maxid >= s.maxid
    ensures s.metacache.Keys <= MetaRun(s, pages).0.metacache.Keys
    ensures s.usermap.Keys <= MetaRun(s, pages).0.usermap.Keys
    decreases |pages|
  {
    if pages != [] && pages[0].MetaPage? {
      MaxOfIsMax(s.maxid, pages[0].comments);
      CacheMetaKeys(s.metacache, pages[0].comments);
      MapUsersKeys(s.usermap, pages[0].users);
      var t := MetaPageStep(s, pages[0]);
      if pages[0].maxid.Some? && t.maxid < pages[0].maxid.value {
        MetaRunMonotone(t, pages[1..]);
      }
    }
  }

  /** Every cached comment id is at most the mark. */
  predicate CoversCache(s: MetaState)
  {
    forall id :: id in s.metacache ==> id <= s.maxid
  }

  /** If every cached id is at most the mark, that stays so through the meta loop. */
  lemma {:induction false} MetaRunCoversCache(s: MetaState, pages: seq<MetaFetch>)
    requires CoversCache(s)
    ensures CoversCache(MetaRun(s, pages).0)
    decreases |pages|
  {
    if pages != [] && pages[0].MetaPage? {
      MaxOfIsMax(s.maxid, pages[0].comments);
      CacheMetaKeys(s.metacache, pages[0].comments);
      var t := MetaPageStep(s, pages[0]);
      forall id | id in t.metacache
        ensures id <= t.maxid
      {
        if id !in s.metacache {
          var i :| 0 <= i < |pages[0].comments| && pages[0].comments[i].id == id;
        }
      }
      if pages[0].maxid.Some? && t.maxid < pages[0].maxid.value {
        MetaRunCoversCache(t, pages[1..]);
      }
    }
  }

  /**
   * Once the loop has stopped on a page (caught up or crashed), it requests
   * nothing more: later replies make no difference.
   */
  lemma {:induction false} MetaRunIgnoresLater(s: MetaState, pages: seq<MetaFetch>, more: seq<MetaFetch>)
    requires MetaRun(s, pages).1 != FetchFailed
    ensures MetaRun(s, pages + more) == MetaRun(s, pages)
    decreases |pages|
  {
    assert pages != [];
    assert (pages + more)[0] == pages[0];
    var t := MetaPageStep(s, pages[0]);
    if pages[0].maxid.Some? && t.maxid < pages[0].maxid.value {
      assert (pages + more)[1..] == pages[1..] + more;
      MetaRunIgnoresLater(t, pages[1..], more);
    }
  }

  // ---------------------------------------------------------------------
  // Comment bodies

  /**
   * A `<comment>` element of a body page: its attributes, with `id` already
   * read as an integer, and its `subject`, `date` and `body` children.
   */
  datatype BodyRecord = BodyRecord(
    id: int, jitemid: string, parentid: string, posterid: string,
    subject: seq<Markup.Element>, date: seq<Markup.Element>, body: seq<Markup.Element>)

  /** The reply to one `get=comment_body` request. */
  datatype BodyFetch = BodyFailed | BodyPage(comments: seq<BodyRecord>)

  /**
   * A comment as stored in a `C-<jitemid>` collection. The file holds the id
   * as `str(id)` and the duplicate scan reads it back with `int()`, which
   * `Watermark.ParseShowInt` shows gives the same id; it is kept here as the
   * integer.
   */
  datatype Comment = Comment(
    id: int, parentid: string, subject: string, date: string, body: string,
    state: string, user: Option<string>)

  /**
   * The comment built from a body record: its state comes from the meta
   * cache, its user from the user map, and its subject, date and body are
   * what `gettext` reads from the record's children. None when the id has no
   * cache entry (a KeyError) or a `subject`, `date` or `body` element has no
   * child (gettext fails).
   */
  function MakeComment(r: BodyRecord, metacache: map<int, Meta>, usermap: map<string, string>): (c: Option<Comment>)
    ensures c.Some? <==> r.id in metacache && Markup.GetText(r.subject).Some?
                         && Markup.GetText(r.date).Some? && Markup.GetText(r.body).Some?
    ensures c.Some? ==> c.value.id == r.id && c.value.parentid == r.parentid
                        && c.value.state == metacache[r.id].state
    ensures c.Some? ==> c.value.subject == Markup.GetText(r.subject).value
                        && c.value.date == Markup.GetText(r.date).value
                        && c.value.body == Markup.GetText(r.body).value
    ensures c.Some? ==> (c.value.user.Some? <==> r.posterid in usermap)
    ensures c.Some? && r.posterid in usermap ==> c.value.user == Some(usermap[r.posterid])
  {
    match (Markup.GetText(r.subject), Markup.GetText(r.date), Markup.GetText(r.body))
    case (Some(subject), Some(date), Some(body)) =>
      if r.id !in metacache then None
      else
        var user := if r.posterid in usermap then Some(usermap[r.posterid]) else None;
        Some(Comment(r.id, r.parentid, subject, date, body, metacache[r.id].state, user))
    case _ => None
  }

  predicate HasId(coll: seq<Comment>, id: int)
  {
    exists i :: 0 <= i < |coll| && coll[i].id == id
  }

  predicate UniqueIds(coll: seq<Comment>)
  {
    forall i, j :: 0 <= i < j < |coll| ==> coll[i].id != coll[j].id
  }

  predicate AllUnique(collections: map<string, seq<Comment>>)
  {
    forall jitemid :: jitemid in collections ==> UniqueIds(collections[jitemid])
  }

  /** The collection of an entry; one without a file is empty. */
  function Collection(collections: map<string, seq<Comment>>, jitemid: string): seq<Comment>
  {
    if jitemid in collections then collections[jitemid] else []
  }

  /**
   * The body phase's state: the high-water mark, the collections, the
   * `newcomments` counter and the collections rewritten so far, in order.
   */
  datatype BodyState = BodyState(
    maxid: int, collections: map<string, seq<Comment>>, newcomments: nat, rewritten: seq<string>)

  /**
   * One comment merged into the collection of its entry: appended (and the
   * collection rewritten) unless the collection already holds its id. The
   * mark advances either way.
   */
  function Merge(s: BodyState, jitemid: string, c: Comment): BodyState
  {
    var coll := Collection(s.collections, jitemid);
    var maxid := if c.id > s.maxid then c.id else s.maxid;
    if HasId(coll, c.id) then s.(maxid := maxid)
    else BodyState(maxid, s.collections[jitemid := coll + [c]], s.newcomments + 1, s.rewritten + [jitemid])
  }

  /**
   * The records of one page, in order; the flag says a record crashed the
   * run, and the state is then the one the crash found.
   */
  function ApplyBodies(s: BodyState, recs: seq<BodyRecord>, metacache: map<int, Meta>, usermap: map<string, string>)
    : (BodyState, bool)
  {
    if recs == [] then (s, false)
    else
      var (t, crashed) := ApplyBodies(s, recs[..|recs| - 1], metacache, usermap);
      var r := recs[|recs| - 1];
      if crashed then (t, true)
      else match MakeComment(r, metacache, usermap)
        case None => (t, true)
        case Some(c) => (Merge(t, r.jitemid, c), false)
  }

  /** One more record of a page that has not crashed yet. */
  lemma ApplyBodiesNext(s: BodyState, recs: seq<BodyRecord>, i: nat,
                        metacache: map<int, Meta>, usermap: map<string, string>)
    requires i < |recs| && !ApplyBodies(s, recs[..i], metacache, usermap).1
    ensures MakeComment(recs[i], metacache, usermap).None? ==>
              ApplyBodies(s, recs[..i + 1], metacache, usermap) == (ApplyBodies(s, recs[..i], metacache, usermap).0, true)
    ensures MakeComment(recs[i], metacache, usermap).Some? ==>
              ApplyBodies(s, recs[..i + 1], metacache, usermap)
              == (Merge(ApplyBodies(s, recs[..i], metacache, usermap).0, recs[i].jitemid,
                        MakeComment(recs[i], metacache, usermap).value), false)
  {
    assert recs[..i + 1][..i] == recs[..i];
  }

  /** A crash ends the page: the records after it change nothing. */
  lemma {:induction false} ApplyBodiesCrashSticks(s: BodyState, recs: seq<BodyRecord>, j: nat,
                                                 metacache: map<int, Meta>, usermap: map<string, string>)
    requires j <= |recs| && ApplyBodies(s, recs[..j], metacache, usermap).1
    ensures ApplyBodies(s, recs, metacache, usermap) == ApplyBodies(s, recs[..j], metacache, usermap)
    decreases |recs| - j
  {
    if j < |recs| {
      assert recs[..j + 1][..j] == recs[..j];
      ApplyBodiesCrashSticks(s, recs, j + 1, metacache, usermap);
    } else {
      assert recs[..j] == recs;
    }
  }

  /**
   * The body loop over the replies to its successive requests, until the mark
   * reaches `newmaxid`; a request beyond the given replies fails.
   */
  function BodyRun(s: BodyState, pages: seq<BodyFetch>, newmaxid: int,
                   metacache: map<int, Meta>, usermap: map<string, string>): (BodyState, Stop)
    decreases |pages|
  {
    if pages == [] || pages[0].BodyFailed? then (s, FetchFailed)
    else
      var (t, crashed) := ApplyBodies(s, pages[0].comments, metacache, usermap);
      if crashed then (t, Crashed)
      else if t.maxid >= newmaxid then (t, ReachedMax)
      else BodyRun(t, pages[1..], newmaxid, metacache, usermap)
  }

  /**
   * How a body state may change: the mark does not drop, collections only
   * grow at their end, the rewrites are logged in order, and the counter
   * grows by the number of rewrites.
   */
  predicate Grows(s: BodyState, t: BodyState)
  {
    && s.maxid <= t.maxid
    && s.rewritten <= t.rewritten
    && t.newcomments == s.newcomments + |t.rewritten| - |s.rewritten|
    && (forall j :: j in s.collections ==> j in t.collections && s.collections[j] <= t.collections[j])
  }

  /**
   * Merging keeps ids unique within every collection, leaves the comment's id
   * in its collection, and only grows the state; a duplicate changes nothing
   * but the mark, a new id appends exactly that comment and logs exactly its
   * entry as rewritten. Other entries' collections are untouched.
   */
  lemma MergeKeepsUnique(s: BodyState, jitemid: string, c: Comment)
    requires AllUnique(s.collections)
    ensures var t := Merge(s, jitemid, c);
            AllUnique(t.collections) && Grows(s, t) && HasId(Collection(t.collections, jitemid), c.id)
    ensures forall j :: j != jitemid ==> Collection(Merge(s, jitemid, c).collections, j) == Collection(s.collections, j)
    ensures Merge(s, jitemid, c).maxid == if c.id > s.maxid then c.id else s.maxid
    ensures HasId(Collection(s.collections, jitemid), c.id) ==>
              Merge(s, jitemid, c).collections == s.collections
              && Merge(s, jitemid, c).newcomments == s.newcomments
              && Merge(s, jitemid, c).rewritten == s.rewritten
    ensures !HasId(Collection(s.collections, jitemid), c.id) ==>
              Collection(Merge(s, jitemid, c).collections, jitemid) == Collection(s.collections, jitemid) + [c]
              && Merge(s, jitemid, c).newcomments == s.newcomments + 1
              && Merge(s, jitemid, c).rewritten == s.rewritten + [jitemid]
  {
    var coll := Collection(s.collections, jitemid);
    var t := Merge(s, jitemid, c);
    if !HasId(coll, c.id) {
      var n := coll + [c];
      assert n[|coll|].id == c.id;
      forall i, j | 0 <= i < j < |n|
        ensures n[i].id != n[j].id
      {
        if j == |coll| {
          assert n[i] == coll[i];
        } else {
          assert n[i] == coll[i] && n[j] == coll[j];
        }
      }
    }
  }

  lemma GrowsTrans(a: BodyState, b: BodyState, c: BodyState)
    requires Grows(a, b) && Grows(b, c)
    ensures Grows(a, c)
  {
    forall j | j in a.collections
      ensures j in c.collections && a.collections[j] <= c.collections[j]
    {
      assert a.collections[j] <= b.collections[j] <= c.collections[j];
    }
  }

  /** The collections stay duplicate-free and only grow through a page. */
  lemma {:induction false} ApplyBodiesGrows(s: BodyState, recs: seq<BodyRecord>,
                                           metacache: map<int, Meta>, usermap: map<string, string>)
    requires AllUnique(s.collections)
    ensures var t := ApplyBodies(s, recs, metacache, usermap).0;
            AllUnique(t.collections) && Grows(s, t)
  {
    if recs != [] {
      var init := recs[..|recs| - 1];
      ApplyBodiesGrows(s, init, metacache, usermap);
      var (t, crashed) := ApplyBodies(s, init, metacache, usermap);
      var r := recs[|recs| - 1];
      if !crashed && MakeComment(r, metacache, usermap).Some? {
        var c := MakeComment(r, metacache, usermap).value;
        MergeKeepsUnique(t, r.jitemid, c);
        GrowsTrans(s, t, Merge(t, r.jitemid, c));
      }
    }
  }

  /**
   * After a page that did not crash, every record of it is in the collection
   * of its entry, and the mark is at least every record's id, duplicates
   * included.
   */
  lemma {:induction false} ApplyBodiesMerges(s: BodyState, recs: seq<BodyRecord>,
                                            metacache: map<int, Meta>, usermap: map<string, string>)
    requires AllUnique(s.collections)
    requires !ApplyBodies(s, recs, metacache, usermap).1
    ensures var t := ApplyBodies(s, recs, metacache, usermap).0;
            forall i :: 0 <= i < |recs| ==> HasId(Collection(t.collections, recs[i].jitemid), recs[i].id)
                                            && recs[i].id <= t.maxid
  {
    if recs != [] {
      var init := recs[..|recs| - 1];
      var r := recs[|recs| - 1];
      var (t, crashed) := ApplyBodies(s, init, metacache, usermap);
      assert !crashed;
      ApplyBodiesMerges(s, init, metacache, usermap);
      ApplyBodiesGrows(s, init, metacache, usermap);
      var c := MakeComment(r, metacache, usermap).value;
      var u := Merge(t, r.jitemid, c);
      MergeKeepsUnique(t, r.jitemid, c);
      forall i | 0 <= i < |recs|
        ensures HasId(Collection(u.collections, recs[i].jitemid), recs[i].id) && recs[i].id <= u.maxid
      {
        if i < |init| {
          assert recs[i] == init[i];
          var k :| 0 <= k < |Collection(t.collections, init[i].jitemid)|
                   && Collection(t.collections, init[i].jitemid)[k].id == init[i].id;
          assert Collection(t.collections, init[i].jitemid) <= Collection(u.collections, init[i].jitemid);
          assert Collection(u.collections, init[i].jitemid)[k] == Collection(t.collections, init[i].jitemid)[k];
        }
      }
    }
  }

  /**
   * A record that does not crash has its id in the meta cache, so if the
   * mark and every cached id are at most `bound`, the mark stays at most
   * `bound` through a page.
   */
  lemma {:induction false} ApplyBodiesBounded(s: BodyState, recs: seq<BodyRecord>, metacache: map<int, Meta>,
                                             usermap: map<string, string>, bound: int)
    requires s.maxid <= bound
    requires forall id :: id in metacache ==> id <= bound
    ensures ApplyBodies(s, recs, metacache, usermap).0.maxid <= bound
  {
    if recs != [] {
      ApplyBodiesBounded(s, recs[..|recs| - 1], metacache, usermap, bound);
    }
  }

  /** The mark never drops through a page, whatever the collections hold. */
  lemma {:induction false} ApplyBodiesMarkGrows(s: BodyState, recs: seq<BodyRecord>,
                                               metacache: map<int, Meta>, usermap: map<string, string>)
    ensures s.maxid <= ApplyBodies(s, recs, metacache, usermap).0.maxid
  {
    if recs != [] {
      ApplyBodiesMarkGrows(s, recs[..|recs| - 1], metacache, usermap);
    }
  }

  /** The body loop never lowers the mark, whatever the collections hold. */
  lemma {:induction false} BodyRunMarkGrows(s: BodyState, pages: seq<BodyFetch>, newmaxid: int,
                                           metacache: map<int, Meta>, usermap: map<string, string>)
    ensures s.maxid <= BodyRun(s, pages, newmaxid, metacache, usermap).0.maxid
    decreases |pages|
  {
    if pages != [] && pages[0].BodyPage? {
      ApplyBodiesMarkGrows(s, pages[0].comments, metacache, usermap);
      var (t, crashed) := ApplyBodies(s, pages[0].comments, metacache, usermap);
      if !crashed && t.maxid < newmaxid {
        BodyRunMarkGrows(t, pages[1..], newmaxid, metacache, usermap);
      }
    }
  }

  /** The body loop keeps collections duplicate-free and only grows its state. */
  lemma {:induction false} BodyRunGrows(s: BodyState, pages: seq<BodyFetch>, newmaxid: int,
                                       metacache: map<int, Meta>, usermap: map<string, string>)
    requires AllUnique(s.collections)
    ensures var t := BodyRun(s, pages, newmaxid, metacache, usermap).0;
            AllUnique(t.collections) && Grows(s, t)
    decreases |pages|
  {
    if pages != [] && pages[0].BodyPage? {
      ApplyBodiesGrows(s, pages[0].comments, metacache, usermap);
      var (t, crashed) := ApplyBodies(s, pages[0].comments, metacache, usermap);
      if !crashed && t.maxid < newmaxid {
        BodyRunGrows(t, pages[1..], newmaxid, metacache, usermap);
        GrowsTrans(s, t, BodyRun(t, pages[1..], newmaxid, metacache, usermap).0);
      }
    }
  }

  /** The body mark stays within any bound on the starting mark and the cached ids. */
  lemma {:induction false} BodyRunBounded(s: BodyState, pages: seq<BodyFetch>, newmaxid: int,
                                         metacache: map<int, Meta>, usermap: map<string, string>, bound: int)
    requires s.maxid <= bound
    requires forall id :: id in metacache ==> id <= bound
    ensures BodyRun(s, pages, newmaxid, metacache, usermap).0.maxid <= bound
    decreases |pages|
  {
    if pages != [] && pages[0].BodyPage? {
      ApplyBodiesBounded(s, pages[0].comments, metacache, usermap, bound);
      var (t, crashed) := ApplyBodies(s, pages[0].comments, metacache, usermap);
      if !crashed && t.maxid < newmaxid {
        BodyRunBounded(t, pages[1..], newmaxid, metacache, usermap, bound);
      }
    }
  }

  /** Once the body loop has stopped on a page, later replies make no difference. */
  lemma {:induction false} BodyRunIgnoresLater(s: BodyState, pages: seq<BodyFetch>, more: seq<BodyFetch>,
                                              newmaxid: int, metacache: map<int, Meta>, usermap: map<string, string>)
    requires BodyRun(s, pages, newmaxid, metacache, usermap).1 != FetchFailed
    ensures BodyRun(s, pages + more, newmaxid, metacache, usermap) == BodyRun(s, pages, newmaxid, metacache, usermap)
    decreases |pages|
  {
    assert pages != [];
    assert (pages + more)[0] == pages[0];
    var (t, crashed) := ApplyBodies(s, pages[0].comments, metacache, usermap);
    if !crashed && t.maxid < newmaxid {
      assert (pages + more)[1..] == pages[1..] + more;
      BodyRunIgnoresLater(t, pages[1..], more, newmaxid, metacache, usermap);
    }
  }

  /**
   * The two phases together: starting both marks at `lastmaxid`, when every
   * id cached before the meta phase is at most `lastmaxid`, the body phase
   * never passes the meta phase's mark.
   */
  lemma BodyMarkWithinMetaMark(lastmaxid: int, metacache: map<int, Meta>, usermap: map<string, string>,
                               metaPages: seq<MetaFetch>, collections: map<string, seq<Comment>>,
                               newcomments: nat, rewritten: seq<string>, bodyPages: seq<BodyFetch>)
    requires forall id :: id in metacache ==> id <= lastmaxid
    ensures var m := MetaRun(MetaState(lastmaxid, metacache, usermap), metaPages).0;
            BodyRun(BodyState(lastmaxid, collections, newcomments, rewritten), bodyPages, m.maxid, m.metacache, m.usermap).0.maxid
            <= m.maxid
  {
    var s := MetaState(lastmaxid, metacache, usermap);
    var m := MetaRun(s, metaPages).0;
    MetaRunMonotone(s, metaPages);
    MetaRunCoversCache(s, metaPages);
    BodyRunBounded(BodyState(lastmaxid, collections, newcomments, rewritten), bodyPages, m.maxid, m.metacache, m.usermap, m.maxid);
  }
}
