/**
 * What the entry sync loop of ljdump.py:186-218 does, stated over the list of
 * change-log items it processes. `Archiver.SyncEntries` is proved to follow
 * these definitions; the lemmas here say what they mean.
 */
module Entries {
  import Markup
  import Watermark
  import opened Wrappers

  /** The reply of `getevents` for one entry: its `events` list, or an XML-RPC fault. */
  datatype Fetch = Events(events: seq<seq<Markup.Field>>) | Fault

  /**
   * One item of a `syncitems` page: its `item` name (`L-<id>` for an entry),
   * `action` and `time`, together with what fetching it would return.
   */
  datatype SyncItem = SyncItem(item: string, action: string, time: string, fetched: Fetch)

  /** An item the loop fetches: its name starts with `L`. */
  predicate IsEntry(it: SyncItem)
  {
    it.item != [] && it.item[0] == 'L'
  }

  /** An entry whose fetch returned at least one event: it is written and counted as new. */
  predicate Written(it: SyncItem)
  {
    IsEntry(it) && it.fetched.Events? && it.fetched.events != []
  }

  /** An entry whose fetch failed or came back empty: it is counted as an error. */
  predicate Failed(it: SyncItem)
  {
    IsEntry(it) && !(it.fetched.Events? && it.fetched.events != [])
  }

  /**
   * The event `writedump` stores for a written item: its first one. The file
   * holds `Markup.WriteDump` of it.
   */
  function Dumped(it: SyncItem): seq<Markup.Field>
    requires Written(it)
  {
    it.fetched.events[0]
  }

  /** The item writes the entry file `name`. */
  predicate WritesTo(it: SyncItem, name: string)
  {
    Written(it) && it.item == name
  }

  // ---------------------------------------------------------------------
  // Which items are processed

  /** The index of the first empty page, which ends the loop (or the number of pages). */
  function FirstEmpty(pages: seq<seq<SyncItem>>): (k: nat)
    ensures k <= |pages|
    ensures forall q :: 0 <= q < k ==> pages[q] != []
    ensures k < |pages| ==> pages[k] == []
  {
    if pages == [] || pages[0] == [] then 0 else 1 + FirstEmpty(pages[1..])
  }

  /** The items of the pages, page after page. */
  function Flatten(pages: seq<seq<SyncItem>>): seq<SyncItem>
  {
    if pages == [] then [] else pages[0] + Flatten(pages[1..])
  }

  /** The items the server reports before the first empty page. */
  function Changes(pages: seq<seq<SyncItem>>): seq<SyncItem>
  {
    Flatten(pages[..FirstEmpty(pages)])
  }

  /** The first item with an empty name: `item['item'][0]` fails there and the run stops. */
  function FirstBadName(items: seq<SyncItem>): (k: nat)
    ensures k <= |items|
    ensures forall q :: 0 <= q < k ==> items[q].item != []
    ensures k < |items| ==> items[k].item == []
  {
    if items == [] || items[0].item == [] then 0 else 1 + FirstBadName(items[1..])
  }

  /**
   * The items the loop gets through, page by page: a page is processed up to
   * its first item with an empty name, and an empty page ends the loop.
   */
  function Processed(pages: seq<seq<SyncItem>>): seq<SyncItem>
  {
    if pages == [] || pages[0] == [] then []
    else if FirstBadName(pages[0]) < |pages[0]| then pages[0][..FirstBadName(pages[0])]
    else pages[0] + Processed(pages[1..])
  }

  /** The loop reaches an empty page (or the end of the pages) without an empty item name. */
  predicate Completes(pages: seq<seq<SyncItem>>)
  {
    pages == [] || pages[0] == [] || (FirstBadName(pages[0]) == |pages[0]| && Completes(pages[1..]))
  }

  // ---------------------------------------------------------------------
  // What processing a list of items does

  /** The cursor after the items: the time of the last one. */
  function LastSync(lastsync: string, items: seq<SyncItem>): string
  {
    if items == [] then lastsync else items[|items| - 1].time
  }

  /**
   * What is written to `.last` while processing the items: one watermark per
   * item, in order, each the item's time with the unchanged comment mark.
   */
  function Persisted(items: seq<SyncItem>, lastmaxid: int): (writes: seq<Watermark.Watermark>)
    ensures |writes| == |items|
  {
    seq(|items|, i requires 0 <= i < |items| => Watermark.Watermark(items[i].time, lastmaxid))
  }

  function CountWritten(items: seq<SyncItem>): nat
  {
    if items == [] then 0
    else CountWritten(items[..|items| - 1]) + if Written(items[|items| - 1]) then 1 else 0
  }

  function CountFailed(items: seq<SyncItem>): nat
  {
    if items == [] then 0
    else CountFailed(items[..|items| - 1]) + if Failed(items[|items| - 1]) then 1 else 0
  }

  function CountEntries(items: seq<SyncItem>): nat
  {
    if items == [] then 0
    else CountEntries(items[..|items| - 1]) + if IsEntry(items[|items| - 1]) then 1 else 0
  }

  /**
   * The entry files after the items: each written entry replaces the file named
   * after it with the dump of its first event.
   */
  function Archive(files: map<string, seq<Markup.Field>>, items: seq<SyncItem>): map<string, seq<Markup.Field>>
  {
    if items == [] then files
    else
      var before := Archive(files, items[..|items| - 1]);
      var it := items[|items| - 1];
      if Written(it) then before[it.item := Dumped(it)] else before
  }

  // ---------------------------------------------------------------------
  // Properties

  // ---------------------------------------------------------------------
  // The same effects, item by item

  /**
   * What the entry loop keeps while it runs: the cursor, the texts written
   * to `.last`, the two counters and the entry files.
   */
  datatype EntryState = EntryState(
    lastsync: string, writes: seq<Watermark.Watermark>, newentries: nat, errors: nat, files: map<string, seq<Markup.Field>>)

  /**
   * One item: an `L` item is fetched and either written and counted as new
   * or counted as an error; every item then moves the cursor to its time and
   * persists it with the unchanged comment mark.
   */
  function Step(s: EntryState, it: SyncItem, lastmaxid: int): EntryState
  {
    var fetched :=
      if !IsEntry(it) then s
      else if Written(it) then s.(files := s.files[it.item := Dumped(it)], newentries := s.newentries + 1)
      else s.(errors := s.errors + 1);
    fetched.(lastsync := it.time, writes := fetched.writes + [Watermark.Watermark(it.time, lastmaxid)])
  }

  /** The items, one step after another. */
  function Replay(s: EntryState, items: seq<SyncItem>, lastmaxid: int): EntryState
  {
    if items == [] then s else Step(Replay(s, items[..|items| - 1], lastmaxid), items[|items| - 1], lastmaxid)
  }

  /** Replaying `a` and then `b` is replaying `a + b`. */
  lemma {:induction false} ReplayAppend(s: EntryState, a: seq<SyncItem>, b: seq<SyncItem>, lastmaxid: int)
    ensures Replay(Replay(s, a, lastmaxid), b, lastmaxid) == Replay(s, a + b, lastmaxid)
  {
    if b == [] {
      assert a + b == a;
    } else {
      var init := b[..|b| - 1];
      ReplayAppend(s, a, init, lastmaxid);
      assert (a + b)[..|a + b| - 1] == a + init;
    }
  }

  /**
   * Replaying the items step by step gives what the functions above say of
   * the whole list: the last item's time, one write per item, the counts of
   * written and failed entries, and the last writer of each file.
   */
  lemma {:induction false} ReplayMatches(s: EntryState, items: seq<SyncItem>, lastmaxid: int)
    ensures Replay(s, items, lastmaxid) == EntryState(
              LastSync(s.lastsync, items), s.writes + Persisted(items, lastmaxid),
              s.newentries + CountWritten(items), s.errors + CountFailed(items), Archive(s.files, items))
  {
    if items != [] {
      var init := items[..|items| - 1];
      ReplayMatches(s, init, lastmaxid);
      assert Persisted(items, lastmaxid) == Persisted(init, lastmaxid) + [Watermark.Watermark(items[|items| - 1].time, lastmaxid)];
    } else {
      assert s.writes + [] == s.writes;
    }
  }

  lemma ConcatAssoc(a: seq<SyncItem>, b: seq<SyncItem>, c: seq<SyncItem>)
    ensures a + b + c == a + (b + c)
  {
  }

  /** Where the loop stands at page `k`: that page ends it, or it goes on past it. */
  lemma ProcessedFrom(pages: seq<seq<SyncItem>>, k: nat)
    requires k <= |pages|
    ensures k == |pages| || pages[k] == [] ==> Processed(pages[k..]) == [] && Completes(pages[k..])
    ensures k < |pages| && pages[k] != [] && FirstBadName(pages[k]) < |pages[k]| ==>
              Processed(pages[k..]) == pages[k][..FirstBadName(pages[k])] && !Completes(pages[k..])
    ensures k < |pages| && pages[k] != [] && FirstBadName(pages[k]) == |pages[k]| ==>
              Processed(pages[k..]) == pages[k] + Processed(pages[k + 1..])
              && Completes(pages[k..]) == Completes(pages[k + 1..])
  {
    if k < |pages| {
      assert pages[k..][0] == pages[k] && pages[k..][1..] == pages[k + 1..];
    }
  }

  lemma {:induction false} FirstBadNameAppend(a: seq<SyncItem>, b: seq<SyncItem>)
    ensures FirstBadName(a + b) == if FirstBadName(a) < |a| then FirstBadName(a) else |a| + FirstBadName(b)
  {
    if a != [] {
      FirstBadNameAppend(a[1..], b);
      assert (a + b)[1..] == a[1..] + b;
    } else {
      assert a + b == b;
    }
  }

  /**
   * The items the loop processes are the items reported before the first
   * empty page, up to the first one with an empty name; the loop completes
   * iff no such item is reported.
   */
  lemma {:induction false} ProcessedMatchesChanges(pages: seq<seq<SyncItem>>)
    ensures Processed(pages) == Changes(pages)[..FirstBadName(Changes(pages))]
    ensures Completes(pages) <==> FirstBadName(Changes(pages)) == |Changes(pages)|
  {
    if pages != [] && pages[0] != [] {
      var e := FirstEmpty(pages);
      ProcessedMatchesChanges(pages[1..]);
      assert pages[..e][1..] == pages[1..][..e - 1];
      assert Changes(pages) == pages[0] + Changes(pages[1..]);
      FirstBadNameAppend(pages[0], Changes(pages[1..]));
      if FirstBadName(pages[0]) == |pages[0]| {
        var rest := Changes(pages[1..]);
        assert (pages[0] + rest)[..|pages[0]| + FirstBadName(rest)] == pages[0] + rest[..FirstBadName(rest)];
      } else {
        assert (pages[0] + Changes(pages[1..]))[..FirstBadName(pages[0])] == pages[0][..FirstBadName(pages[0])];
      }
    }
  }

  lemma {:induction false} FlattenLast(pages: seq<seq<SyncItem>>)
    requires pages != [] && pages[|pages| - 1] != []
    ensures var f := Flatten(pages);
            f != [] && f[|f| - 1] == pages[|pages| - 1][|pages[|pages| - 1]| - 1]
  {
    if |pages| > 1 {
      FlattenLast(pages[1..]);
    }
  }

  /** Each fetched entry adds to exactly one of the two counters. */
  lemma {:induction false} EntryCounted(items: seq<SyncItem>)
    ensures CountWritten(items) + CountFailed(items) == CountEntries(items)
  {
    if items != [] {
      EntryCounted(items[..|items| - 1]);
    }
  }

  /** Items that are not entries move neither counter. */
  lemma {:induction false} OnlyEntriesCounted(items: seq<SyncItem>)
    requires forall i :: 0 <= i < |items| ==> !IsEntry(items[i])
    ensures CountWritten(items) == 0 && CountFailed(items) == 0
  {
    if items != [] {
      OnlyEntriesCounted(items[..|items| - 1]);
    }
  }

  /**
   * After every item the watermark file, as `writelast` writes it, reads
   * back as that item's time and the unchanged high-water mark.
   */
  lemma PersistedReadsBack(items: seq<SyncItem>, lastmaxid: int, i: nat)
    requires i < |items| && Watermark.IsCursor(items[i].time)
    ensures var w := Persisted(items, lastmaxid)[i];
            Watermark.ReadLast(Some(Watermark.WriteLast(w.lastsync, w.lastmaxid)))
            == Watermark.Loaded(Watermark.Watermark(items[i].time, lastmaxid))
  {
    Watermark.LastRoundTrip(Watermark.Watermark(items[i].time, lastmaxid));
  }

  /**
   * An entry file holds the first event of the last item that wrote it; a
   * file no item wrote is as it was.
   */
  lemma {:induction false} ArchiveLastWins(files: map<string, seq<Markup.Field>>, items: seq<SyncItem>, name: string)
    ensures name in Archive(files, items) <==>
              name in files || exists i :: 0 <= i < |items| && WritesTo(items[i], name)
    ensures forall i :: 0 <= i < |items| && WritesTo(items[i], name)
                        && (forall j :: i < j < |items| ==> !WritesTo(items[j], name))
                        ==> name in Archive(files, items) && Archive(files, items)[name] == Dumped(items[i])
    ensures (forall i :: 0 <= i < |items| ==> !WritesTo(items[i], name)) && name in files
            ==> name in Archive(files, items) && Archive(files, items)[name] == files[name]
  {
    if items != [] {
      var n := |items| - 1;
      var init := items[..n];
      ArchiveLastWins(files, init, name);
      assert forall i :: 0 <= i < n ==> init[i] == items[i];
    }
  }

  /**
   * When no item has an empty name, the cursor ends at the time of the last
   * item of the last non-empty page.
   */
  lemma LastSyncIsLastOfLastPage(lastsync: string, pages: seq<seq<SyncItem>>)
    requires FirstEmpty(pages) > 0
    requires FirstBadName(Changes(pages)) == |Changes(pages)|
    ensures var last := pages[FirstEmpty(pages) - 1];
            LastSync(lastsync, Processed(pages)) == last[|last| - 1].time
  {
    ProcessedMatchesChanges(pages);
    FlattenLast(pages[..FirstEmpty(pages)]);
  }
}
