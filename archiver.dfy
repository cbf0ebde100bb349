/**
 * The state `ljdump` keeps while it archives a journal, and the three loops
 * that update it: the entry sync (ljdump.py:186-218), the comment-meta
 * pagination (ljdump.py:259-293) and the comment-body merge
 * (ljdump.py:295-345). The remote service is given as the replies to the
 * successive requests; the files the run writes are fields.
 */
module Archiver {
  import opened Wrappers
  import Watermark
  import Entries
  import Comments
  import Markup

  /** A cache file that is missing or cannot be loaded starts out empty. */
  function OrEmpty<K, V>(file: Option<map<K, V>>): (m: map<K, V>)
    ensures file.None? ==> m == map[]
    ensures file.Some? ==> m == file.value
  {
    if file.Some? then file.value else map[]
  }

  /** How a run ends. */
  datatype Outcome =
    | Finished      // all phases ran to their end
    | EntryCrash    // a change-log item had an empty name
    | MetaCrash     // a meta page had no readable maxid
    | BodyCrash     // a body record had no cached meta, or a text element had no child

  /**
   * The scan of a collection for a comment id: true iff some comment in it
   * has that id.
   */
  method FindComment(coll: seq<Comments.Comment>, id: int) returns (found: bool)
    ensures found <==> Comments.HasId(coll, id)
  {
    found := false;
    var i := 0;
    while i < |coll|
      invariant i <= |coll|
      invariant forall j :: 0 <= j < i ==> coll[j].id != id
    {
      if coll[i].id == id {
        found := true;
        break;
      }
      i := i + 1;
    }
  }

  class Archiver {
    /** The change-log cursor and the comment high-water mark. */
    var lastsync: string
    var lastmaxid: int
    /** The run's counters. */
    var newentries: nat
    var newcomments: nat
    var errors: nat
    /** The entry files `L-<itemid>`, by item name: the event each holds, as `Markup.WriteDump` writes it. */
    var entries: map<string, seq<Markup.Field>>
    /** Every watermark written to `.last`, in order; the file holds `Watermark.WriteLast` of the last one. */
    var lastWrites: seq<Watermark.Watermark>
    /** The caches in memory during the comment phases. */
    var metacache: map<int, Comments.Meta>
    var usermap: map<string, string>
    /** The `comment.meta` and `user.map` files: None when missing or unreadable. */
    var savedMeta: Option<map<int, Comments.Meta>>
    var savedUsers: Option<map<string, string>>
    /** The comment collections `C-<jitemid>`, by jitemid. */
    var collections: map<string, seq<Comments.Comment>>
    /** The jitemids whose collection file was rewritten, in order. */
    var rewritten: seq<string>

    /** A run over a journal directory as it stands, starting from the loaded watermark. */
    constructor (mark: Watermark.Watermark, entries: map<string, seq<Markup.Field>>,
                 savedMeta: Option<map<int, Comments.Meta>>, savedUsers: Option<map<string, string>>,
                 collections: map<string, seq<Comments.Comment>>)
      ensures lastsync == mark.lastsync && lastmaxid == mark.lastmaxid
      ensures newentries == 0 && newcomments == 0 && errors == 0
      ensures this.entries == entries && lastWrites == []
      ensures metacache == map[] && usermap == map[]
      ensures this.savedMeta == savedMeta && this.savedUsers == savedUsers
      ensures this.collections == collections && rewritten == []
    {
      lastsync := mark.lastsync;
      lastmaxid := mark.lastmaxid;
      newentries, newcomments, errors := 0, 0, 0;
      this.entries := entries;
      lastWrites := [];
      metacache, usermap := map[], map[];
      this.savedMeta, this.savedUsers := savedMeta, savedUsers;
      this.collections := collections;
      rewritten := [];
    }

    /** The part of the state the entry loop changes. */
    ghost function EntryView(): Entries.EntryState
      reads this
    {
      Entries.EntryState(lastsync, lastWrites, newentries, errors, entries)
    }

    /**
     * The items of one change-log page, in order, up to the first one with an
     * empty name. Returns false when an item with an empty name stopped it.
     */
    method SyncPage(page: seq<Entries.SyncItem>) returns (ok: bool)
      modifies this`lastsync, this`lastWrites, this`newentries, this`errors, this`entries
      ensures ok <==> Entries.FirstBadName(page) == |page|
      ensures EntryView() == Entries.Replay(old(EntryView()), page[..Entries.FirstBadName(page)], lastmaxid)
    {
      var i := 0;
      while i < |page|
        invariant i <= |page|
        invariant forall q :: 0 <= q < i ==> page[q].item != []
        invariant EntryView() == Entries.Replay(old(EntryView()), page[..i], lastmaxid)
      {
        var item := page[i];
        if item.item == [] {
          // `item['item'][0]` raises IndexError
          assert Entries.FirstBadName(page) == i;
          return false;
        }
        assert page[..i + 1][..i] == page[..i];
        if item.item[0] == 'L' {
          if item.fetched.Events? && item.fetched.events != [] {
            entries := entries[item.item := Entries.Dumped(item)];
            newentries := newentries + 1;
          } else {
            errors := errors + 1;
          }
        }
        lastsync := item.time;
        lastWrites := lastWrites + [Watermark.Watermark(lastsync, lastmaxid)];
        i := i + 1;
      }
      assert page[..i] == page;
      return true;
    }

    /**
     * The entry sync: walks the change-log pages until an empty one,
     * processing the items of each. Returns false when an item with an empty
     * name ended the run.
     */
    method SyncEntries(pages: seq<seq<Entries.SyncItem>>) returns (completed: bool)
      modifies this`lastsync, this`lastWrites, this`newentries, this`errors, this`entries
      ensures EntryView() == Entries.Replay(old(EntryView()), Entries.Processed(pages), lastmaxid)
      ensures completed <==> Entries.Completes(pages)
    {
      ghost var done: seq<Entries.SyncItem> := [];
      var k := 0;
      while k < |pages| && pages[k] != []
        invariant k <= |pages|
        invariant Entries.Processed(pages) == done + Entries.Processed(pages[k..])
        invariant Entries.Completes(pages) == Entries.Completes(pages[k..])
        invariant EntryView() == Entries.Replay(old(EntryView()), done, lastmaxid)
        decreases |pages| - k
      {
        var page := pages[k];
        var ok := SyncPage(page);
        Entries.ProcessedFrom(pages, k);
        Entries.ReplayAppend(old(EntryView()), done, page[..Entries.FirstBadName(page)], lastmaxid);
        if !ok {
          return false;
        }
        assert page[..|page|] == page;
        Entries.ConcatAssoc(done, page, Entries.Processed(pages[k + 1..]));
        done := done + page;
        k := k + 1;
      }
      Entries.ProcessedFrom(pages, k);
      assert done + [] == done;
      return true;
    }

    /**
     * The comment-meta pagination: loads the caches, merges every page into
     * them until the mark reaches a page's declared maxid or a request fails,
     * and saves both caches, however the loop ended, unless a page without a
     * maxid crashed the run. Returns the new mark.
     */
    method SyncCommentMeta(pages: seq<Comments.MetaFetch>) returns (newmaxid: int, stop: Comments.Stop)
      modifies this`metacache, this`usermap, this`savedMeta, this`savedUsers
      ensures (Comments.MetaState(newmaxid, metacache, usermap), stop)
              == Comments.MetaRun(Comments.MetaState(lastmaxid, OrEmpty(old(savedMeta)), OrEmpty(old(savedUsers))), pages)
      ensures stop != Comments.Crashed ==> savedMeta == Some(metacache) && savedUsers == Some(usermap)
      ensures stop == Comments.Crashed ==> savedMeta == old(savedMeta) && savedUsers == old(savedUsers)
    {
      ghost var start := Comments.MetaState(lastmaxid, OrEmpty(savedMeta), OrEmpty(savedUsers));
      metacache := OrEmpty(savedMeta);
      usermap := OrEmpty(savedUsers);
      var maxid := lastmaxid;
      var k := 0;
      while true
        invariant k <= |pages|
        invariant savedMeta == old(savedMeta) && savedUsers == old(savedUsers)
        invariant Comments.MetaRun(Comments.MetaState(maxid, metacache, usermap), pages[k..])
                  == Comments.MetaRun(start, pages)
        decreases |pages| - k
      {
        if k == |pages| || pages[k].MetaFailed? {
          stop := Comments.FetchFailed;
          break;
        }
        var page := pages[k];
        ghost var before := Comments.MetaState(maxid, metacache, usermap);
        for i := 0 to |page.comments|
          modifies this`metacache
          invariant metacache == Comments.CacheMeta(before.metacache, page.comments[..i])
          invariant maxid == Comments.MaxOf(before.maxid, page.comments[..i])
        {
          var c := page.comments[i];
          assert page.comments[..i + 1][..i] == page.comments[..i];
          metacache := metacache[c.id := Comments.Meta(c.posterid, c.state)];
          if c.id > maxid {
            maxid := c.id;
          }
        }
        for i := 0 to |page.users|
          modifies this`usermap
          invariant usermap == Comments.MapUsers(before.usermap, page.users[..i])
        {
          var u := page.users[i];
          assert page.users[..i + 1][..i] == page.users[..i];
          usermap := usermap[u.id := u.user];
        }
        assert page.comments[..|page.comments|] == page.comments;
        assert page.users[..|page.users|] == page.users;
        assert Comments.MetaState(maxid, metacache, usermap) == Comments.MetaPageStep(before, page);
        assert pages[k..][0] == page && pages[k..][1..] == pages[k + 1..];
        if page.maxid.None? {
          // `getElementsByTagName("maxid")[0]` or `int()` raises
          return maxid, Comments.Crashed;
        }
        if maxid >= page.maxid.value {
          stop := Comments.ReachedMax;
          break;
        }
        k := k + 1;
      }
      savedMeta := Some(metacache);
      savedUsers := Some(usermap);
      newmaxid := maxid;
    }

    /**
     * One comment merged into the collection of its entry: the collection is
     * scanned for its id, and only a new id is appended, the collection
     * rewritten and counted. Returns the advanced mark.
     */
    method MergeComment(maxid: int, jitemid: string, c: Comments.Comment) returns (newmax: int)
      modifies this`collections, this`rewritten, this`newcomments
      ensures Comments.BodyState(newmax, collections, newcomments, rewritten)
              == Comments.Merge(Comments.BodyState(maxid, old(collections), old(newcomments), old(rewritten)), jitemid, c)
    {
      var coll := if jitemid in collections then collections[jitemid] else [];
      var found := FindComment(coll, c.id);
      if !found {
        collections := collections[jitemid := coll + [c]];
        rewritten := rewritten + [jitemid];
        newcomments := newcomments + 1;
      }
      newmax := if c.id > maxid then c.id else maxid;
    }

    /**
     * The comment-body merge: builds each comment from its record and the
     * caches, appends it to the collection of its entry unless the id is
     * there already, and advances the mark on every record, until the mark
     * reaches `newmaxid` or a request fails. Then the mark is stored and
     * persisted, unless a record crashed the run.
     */
    method SyncCommentBodies(newmaxid: int, pages: seq<Comments.BodyFetch>) returns (stop: Comments.Stop)
      modifies this`collections, this`newcomments, this`rewritten, this`lastmaxid, this`lastWrites
      ensures var (t, st) := Comments.BodyRun(
                Comments.BodyState(old(lastmaxid), old(collections), old(newcomments), old(rewritten)),
                pages, newmaxid, metacache, usermap);
              && stop == st
              && collections == t.collections && newcomments == t.newcomments && rewritten == t.rewritten
              && (st != Comments.Crashed ==>
                    lastmaxid == t.maxid && lastWrites == old(lastWrites) + [Watermark.Watermark(lastsync, t.maxid)])
              && (st == Comments.Crashed ==> lastmaxid == old(lastmaxid) && lastWrites == old(lastWrites))
    {
      ghost var start := Comments.BodyState(lastmaxid, collections, newcomments, rewritten);
      var maxid := lastmaxid;
      var k := 0;
      while true
        invariant k <= |pages|
        invariant lastmaxid == old(lastmaxid) && lastWrites == old(lastWrites)
        invariant Comments.BodyRun(Comments.BodyState(maxid, collections, newcomments, rewritten),
                                   pages[k..], newmaxid, metacache, usermap)
                  == Comments.BodyRun(start, pages, newmaxid, metacache, usermap)
        decreases |pages| - k
      {
        if k == |pages| || pages[k].BodyFailed? {
          stop := Comments.FetchFailed;
          break;
        }
        var page := pages[k];
        assert pages[k..][0] == page && pages[k..][1..] == pages[k + 1..];
        ghost var before := Comments.BodyState(maxid, collections, newcomments, rewritten);
        for i := 0 to |page.comments|
          modifies this`collections, this`rewritten, this`newcomments
          invariant Comments.ApplyBodies(before, page.comments[..i], metacache, usermap)
                    == (Comments.BodyState(maxid, collections, newcomments, rewritten), false)
        {
          var r := page.comments[i];
          Comments.ApplyBodiesNext(before, page.comments, i, metacache, usermap);
          var made := Comments.MakeComment(r, metacache, usermap);
          if made.None? {
            // `metacache[id]` raises KeyError, or gettext meets an element without a child
            Comments.ApplyBodiesCrashSticks(before, page.comments, i + 1, metacache, usermap);
            return Comments.Crashed;
          }
          maxid := MergeComment(maxid, r.jitemid, made.value);
        }
        assert page.comments[..|page.comments|] == page.comments;
        if maxid >= newmaxid {
          stop := Comments.ReachedMax;
          break;
        }
        k := k + 1;
      }
      lastmaxid := maxid;
      lastWrites := lastWrites + [Watermark.Watermark(lastsync, lastmaxid)];
    }

    /**
     * The two comment phases: the meta pagination, then, unless it crashed,
     * the body merge under the mark it reached.
     */
    method SyncComments(metaPages: seq<Comments.MetaFetch>, bodyPages: seq<Comments.BodyFetch>)
      returns (outcome: Outcome)
      modifies this`metacache, this`usermap, this`savedMeta, this`savedUsers
      modifies this`collections, this`newcomments, this`rewritten, this`lastmaxid, this`lastWrites
      ensures outcome != EntryCrash
      ensures var (m, mstop) := Comments.MetaRun(
                Comments.MetaState(old(lastmaxid), OrEmpty(old(savedMeta)), OrEmpty(old(savedUsers))), metaPages);
              && metacache == m.metacache && usermap == m.usermap
              && (outcome == MetaCrash <==> mstop == Comments.Crashed)
              && (mstop == Comments.Crashed ==>
                    lastWrites == old(lastWrites) && lastmaxid == old(lastmaxid)
                    && savedMeta == old(savedMeta) && savedUsers == old(savedUsers)
                    && collections == old(collections) && newcomments == old(newcomments) && rewritten == old(rewritten))
              && (mstop != Comments.Crashed ==> savedMeta == Some(m.metacache) && savedUsers == Some(m.usermap))
      ensures var (m, mstop) := Comments.MetaRun(
                Comments.MetaState(old(lastmaxid), OrEmpty(old(savedMeta)), OrEmpty(old(savedUsers))), metaPages);
              var (b, bstop) := Comments.BodyRun(
                Comments.BodyState(old(lastmaxid), old(collections), old(newcomments), old(rewritten)),
                bodyPages, m.maxid, m.metacache, m.usermap);
              mstop != Comments.Crashed ==>
                && collections == b.collections && newcomments == b.newcomments && rewritten == b.rewritten
                && (outcome == BodyCrash <==> bstop == Comments.Crashed)
                && (outcome == Finished <==> bstop != Comments.Crashed)
                && (bstop == Comments.Crashed ==> lastWrites == old(lastWrites) && lastmaxid == old(lastmaxid))
                && (bstop != Comments.Crashed ==>
                      lastmaxid == b.maxid && lastWrites == old(lastWrites) + [Watermark.Watermark(lastsync, b.maxid)])
      ensures lastmaxid >= old(lastmaxid)
      ensures Comments.AllUnique(old(collections)) ==> Comments.AllUnique(collections)
    {
      var newmaxid, metaStop := SyncCommentMeta(metaPages);
      if metaStop == Comments.Crashed {
        return MetaCrash;
      }
      ghost var start := Comments.BodyState(lastmaxid, collections, newcomments, rewritten);
      if Comments.AllUnique(collections) {
        Comments.BodyRunGrows(start, bodyPages, newmaxid, metacache, usermap);
      }
      Comments.BodyRunMarkGrows(start, bodyPages, newmaxid, metacache, usermap);
      var bodyStop := SyncCommentBodies(newmaxid, bodyPages);
      if bodyStop == Comments.Crashed {
        return BodyCrash;
      }
      return Finished;
    }

    /**
     * The archiving part of one `ljdump` call: the entry sync, then the two
     * comment phases, each given the replies to its requests. A phase runs
     * only when the one before it did not crash; the state is what the three
     * phases' specifications give in turn. When the run finishes, `.last`
     * holds the final cursor and mark, and the mark has not gone down.
     */
    method Run(entryPages: seq<seq<Entries.SyncItem>>, metaPages: seq<Comments.MetaFetch>,
               bodyPages: seq<Comments.BodyFetch>) returns (outcome: Outcome)
      modifies this
      // the entry sync
      ensures var e := Entries.Replay(old(EntryView()), Entries.Processed(entryPages), old(lastmaxid));
              && lastsync == e.lastsync && newentries == e.newentries && errors == e.errors && entries == e.files
              && (outcome == EntryCrash <==> !Entries.Completes(entryPages))
              && (outcome == EntryCrash ==>
                    lastWrites == e.writes && lastmaxid == old(lastmaxid)
                    && metacache == old(metacache) && usermap == old(usermap)
                    && savedMeta == old(savedMeta) && savedUsers == old(savedUsers)
                    && collections == old(collections) && newcomments == old(newcomments) && rewritten == old(rewritten))
      // the comment-meta pagination, after a completed entry sync
      ensures var e := Entries.Replay(old(EntryView()), Entries.Processed(entryPages), old(lastmaxid));
              var (m, mstop) := Comments.MetaRun(
                Comments.MetaState(old(lastmaxid), OrEmpty(old(savedMeta)), OrEmpty(old(savedUsers))), metaPages);
              Entries.Completes(entryPages) ==>
                && metacache == m.metacache && usermap == m.usermap
                && (outcome == MetaCrash <==> mstop == Comments.Crashed)
                && (mstop == Comments.Crashed ==>
                      lastWrites == e.writes && lastmaxid == old(lastmaxid)
                      && savedMeta == old(savedMeta) && savedUsers == old(savedUsers)
                      && collections == old(collections) && newcomments == old(newcomments) && rewritten == old(rewritten))
                && (mstop != Comments.Crashed ==> savedMeta == Some(m.metacache) && savedUsers == Some(m.usermap))
      // the comment-body merge, after both earlier phases
      ensures var e := Entries.Replay(old(EntryView()), Entries.Processed(entryPages), old(lastmaxid));
              var (m, mstop) := Comments.MetaRun(
                Comments.MetaState(old(lastmaxid), OrEmpty(old(savedMeta)), OrEmpty(old(savedUsers))), metaPages);
              var (b, bstop) := Comments.BodyRun(
                Comments.BodyState(old(lastmaxid), old(collections), old(newcomments), old(rewritten)),
                bodyPages, m.maxid, m.metacache, m.usermap);
              Entries.Completes(entryPages) && mstop != Comments.Crashed ==>
                && collections == b.collections && newcomments == b.newcomments && rewritten == b.rewritten
                && (outcome == BodyCrash <==> bstop == Comments.Crashed)
                && (outcome == Finished <==> bstop != Comments.Crashed)
                && (bstop == Comments.Crashed ==> lastWrites == e.writes && lastmaxid == old(lastmaxid))
                && (bstop != Comments.Crashed ==>
                      lastmaxid == b.maxid && lastWrites == e.writes + [Watermark.Watermark(e.lastsync, b.maxid)])
      ensures outcome == Finished ==>
                lastWrites != [] && lastWrites[|lastWrites| - 1] == Watermark.Watermark(lastsync, lastmaxid)
      ensures outcome == Finished ==> lastmaxid >= old(lastmaxid)
      ensures Comments.AllUnique(old(collections)) ==> Comments.AllUnique(collections)
    {
      var completed := SyncEntries(entryPages);
      if !completed {
        return EntryCrash;
      }
      outcome := SyncComments(metaPages, bodyPages);
    }
  }
}
