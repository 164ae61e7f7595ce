/**
 * The issue and pull-request scanner (`GitHubIntegration._process_items`,
 * behind `get_issues` and `get_pull_requests`). It requests pages 1, 2, ...
 * until an empty one; in each page it skips items newer than the end date,
 * stops the whole scan at the first item older than the start date, and
 * stores every other item under its `number`, returning as soon as `limit`
 * numbers are held.
 */
module IssueScan {
  import opened Wrappers
  import opened Dates
  import opened Pages

  /** An issue or pull request as the API returns it; `createdAt` is the parsed `created_at`. */
  datatype Item = Item(number: int, title: string, state: string, createdAt: int, login: string, body: string)

  /** The record the scan stores for an item. */
  datatype IssueRecord = IssueRecord(number: int, title: string, state: string, createdAt: int, author: string, body: string)

  function Project(it: Item): IssueRecord
  {
    IssueRecord(it.number, it.title, it.state, it.createdAt, it.login, it.body)
  }

  /** Why a scan ended: an empty page, an item older than the start date, or the limit. */
  datatype Stop = Exhausted | PassedStart | LimitReached

  /** The state after walking through some items: still going, or finished. */
  datatype Step = Continue(acc: map<int, IssueRecord>) | Halt(acc: map<int, IssueRecord>, why: Stop)

  /** What the scan returns, with the number of page requests it made. */
  datatype Outcome = Outcome(items: map<int, IssueRecord>, fetched: nat, why: Stop)

  /** The body of `for item in page_items`, run over the items `s` from the dictionary `acc`. */
  function ScanItems(s: seq<Item>, w: Window, limit: Option<int>, acc: map<int, IssueRecord>): Step
    decreases |s|
  {
    if s == [] then Continue(acc)
    else if AfterEnd(w, s[0].createdAt) then ScanItems(s[1..], w, limit, acc)
    else if BeforeStart(w, s[0].createdAt) then Halt(acc, PassedStart)
    else
      var acc' := acc[s[0].number := Project(s[0])];
      if LimitHit(limit, |acc'|) then Halt(acc', LimitReached) else ScanItems(s[1..], w, limit, acc')
  }

  /** The `while True` loop over the pages, from the dictionary `acc`. */
  function ScanPages(pages: seq<seq<Item>>, w: Window, limit: Option<int>, acc: map<int, IssueRecord>): Outcome
    decreases |pages|
  {
    if pages == [] || pages[0] == [] then Outcome(acc, 1, Exhausted)
    else
      match ScanItems(pages[0], w, limit, acc)
      case Halt(a, why) => Outcome(a, 1, why)
      case Continue(a) =>
        var o := ScanPages(pages[1..], w, limit, a);
        o.(fetched := o.fetched + 1)
  }

  /** A whole scan, starting from the empty dictionary. */
  function Scan(pages: seq<seq<Item>>, w: Window, limit: Option<int>): Outcome
  {
    ScanPages(pages, w, limit, map[])
  }

  /**
   * `_process_items`: the imperative scan. It returns the dictionary and the
   * page numbers it requested, which are 1, 2, ... up to the page where it stopped.
   */
  method ProcessItems(pages: seq<seq<Item>>, w: Window, limit: Option<int>)
    returns (items: map<int, IssueRecord>, requested: seq<int>)
    ensures items == Scan(pages, w, limit).items
    ensures |requested| == Scan(pages, w, limit).fetched
    ensures forall i :: 0 <= i < |requested| ==> requested[i] == i + 1
  {
    items := map[];
    requested := [];
    var page := 1;
    while true
      invariant 1 <= page <= |pages| + 1
      invariant |requested| == page - 1
      invariant forall i :: 0 <= i < |requested| ==> requested[i] == i + 1
      invariant var o := ScanPages(pages[page - 1..], w, limit, items);
        o.(fetched := o.fetched + page - 1) == Scan(pages, w, limit)
      decreases |pages| + 1 - page
    {
      requested := requested + [page];
      var pageItems := Fetch(pages, page);
      if pageItems == [] {
        return;
      }
      assert pages[page - 1..][0] == pageItems;
      assert pages[page - 1..][1..] == pages[page..];
      ghost var before := items;
      for i := 0 to |pageItems|
        invariant ScanItems(pageItems[i..], w, limit, items) == ScanItems(pageItems, w, limit, before)
      {
        var item := pageItems[i];
        assert pageItems[i..][0] == item && pageItems[i..][1..] == pageItems[i + 1..];
        if AfterEnd(w, item.createdAt) {
          continue;
        }
        if BeforeStart(w, item.createdAt) {
          return;
        }
        items := items[item.number := Project(item)];
        if LimitHit(limit, |items|) {
          return;
        }
      }
      page := page + 1;
    }
  }

  // ---------------------------------------------------------------------------
  // Reference definitions: filter to the window first, then build the dictionary.

  /** The items of `s` inside the window, in order. */
  function FilterWindow(w: Window, s: seq<Item>): (r: seq<Item>)
    decreases |s|
  {
    if s == [] then []
    else (if InWindow(w, s[0].createdAt) then [s[0]] else []) + FilterWindow(w, s[1..])
  }

  /** A dictionary built from every item of `s`, later numbers overwriting earlier ones. */
  function InsertAll(s: seq<Item>, acc: map<int, IssueRecord>): map<int, IssueRecord>
    decreases |s|
  {
    if s == [] then acc else InsertAll(s[1..], acc[s[0].number := Project(s[0])])
  }

  /** Like `InsertAll`, but returns the moment the dictionary reaches the limit. */
  function Gather(s: seq<Item>, limit: Option<int>, acc: map<int, IssueRecord>): map<int, IssueRecord>
    decreases |s|
  {
    if s == [] then acc
    else
      var acc' := acc[s[0].number := Project(s[0])];
      if LimitHit(limit, |acc'|) then acc' else Gather(s[1..], limit, acc')
  }

  /** Items arrive newest first, across page boundaries (`sort=created`, `direction=desc`). */
  ghost predicate Descending(s: seq<Item>)
  {
    forall i, j :: 0 <= i < j < |s| ==> s[j].createdAt <= s[i].createdAt
  }

  /** The effective cap of a capped scan: a negative limit is reached by the first stored item. */
  function Cap(limit: Option<int>): int
    requires Capped(limit)
  {
    if limit.value > 0 then limit.value else 1
  }

  // ---------------------------------------------------------------------------
  // Lemmas.

  /** Walking through `a + b` is walking through `a`, then (unless that stopped) through `b`. */
  lemma {:induction false} ScanItemsAppend(a: seq<Item>, b: seq<Item>, w: Window, limit: Option<int>, acc: map<int, IssueRecord>)
    ensures ScanItems(a + b, w, limit, acc) ==
      match ScanItems(a, w, limit, acc)
      case Halt(_, _) => ScanItems(a, w, limit, acc)
      case Continue(x) => ScanItems(b, w, limit, x)
    decreases |a|
  {
    if a != [] {
      assert (a + b)[0] == a[0] && (a + b)[1..] == a[1..] + b;
      var it := a[0];
      if AfterEnd(w, it.createdAt) {
        ScanItemsAppend(a[1..], b, w, limit, acc);
      } else if !BeforeStart(w, it.createdAt) {
        ScanItemsAppend(a[1..], b, w, limit, acc[it.number := Project(it)]);
      }
    } else {
      assert a + b == b;
    }
  }

  /** The page loop is the item walk over the stream of pages, stopping on the first empty page. */
  lemma {:induction false} ScanPagesIsStreamScan(pages: seq<seq<Item>>, w: Window, limit: Option<int>, acc: map<int, IssueRecord>)
    ensures ScanPages(pages, w, limit, acc).items == ScanItems(Stream(pages), w, limit, acc).acc
    ensures ScanPages(pages, w, limit, acc).why ==
      match ScanItems(Stream(pages), w, limit, acc)
      case Continue(_) => Exhausted
      case Halt(_, why) => why
    decreases |pages|
  {
    if pages != [] && pages[0] != [] {
      ScanItemsAppend(pages[0], Stream(pages[1..]), w, limit, acc);
      match ScanItems(pages[0], w, limit, acc)
      case Halt(_, _) =>
      case Continue(x) => ScanPagesIsStreamScan(pages[1..], w, limit, x);
    }
  }

  /** A walk through items halts only on an old item or on the limit. */
  lemma {:induction false} HaltIsNeverExhausted(s: seq<Item>, w: Window, limit: Option<int>, acc: map<int, IssueRecord>)
    ensures var r := ScanItems(s, w, limit, acc); r.Halt? ==> r.why != Exhausted
    decreases |s|
  {
    if s != [] {
      var it := s[0];
      if AfterEnd(w, it.createdAt) {
        HaltIsNeverExhausted(s[1..], w, limit, acc);
      } else if !BeforeStart(w, it.createdAt) {
        HaltIsNeverExhausted(s[1..], w, limit, acc[it.number := Project(it)]);
      }
    }
  }

  /**
   * Pages are requested as 1, 2, ..., `fetched`: every page before the last
   * request was non-empty, and the scan ran out of pages exactly when the last
   * request came back empty.
   */
  lemma {:induction false} ScanPagesShape(pages: seq<seq<Item>>, w: Window, limit: Option<int>, acc: map<int, IssueRecord>)
    ensures var o := ScanPages(pages, w, limit, acc);
      && 1 <= o.fetched <= |pages| + 1
      && (forall n :: 1 <= n < o.fetched ==> Fetch(pages, n) != [])
      && (o.why == Exhausted <==> Fetch(pages, o.fetched) == [])
    decreases |pages|
  {
    if pages != [] && pages[0] != [] {
      assert Fetch(pages, 1) == pages[0];
      HaltIsNeverExhausted(pages[0], w, limit, acc);
      match ScanItems(pages[0], w, limit, acc)
      case Halt(_, _) =>
      case Continue(x) =>
        ScanPagesShape(pages[1..], w, limit, x);
        var o := ScanPages(pages[1..], w, limit, x);
        FetchShift(pages, o.fetched);
        forall n | 1 <= n < o.fetched + 1
          ensures Fetch(pages, n) != []
        {
          if n > 1 {
            FetchShift(pages, n - 1);
          }
        }
    }
  }

  /** The scan reads only the pages it requested: any source that answers those requests alike gives the same outcome. */
  lemma {:induction false} ScanPagesLocal(pages: seq<seq<Item>>, pages': seq<seq<Item>>, w: Window, limit: Option<int>, acc: map<int, IssueRecord>)
    requires forall n :: 1 <= n <= ScanPages(pages, w, limit, acc).fetched ==> Fetch(pages', n) == Fetch(pages, n)
    ensures ScanPages(pages', w, limit, acc) == ScanPages(pages, w, limit, acc)
    decreases |pages|
  {
    assert Fetch(pages', 1) == Fetch(pages, 1);
    if pages != [] && pages[0] != [] {
      assert pages'[0] == pages[0];
      match ScanItems(pages[0], w, limit, acc)
      case Halt(_, _) =>
      case Continue(x) =>
        var o := ScanPages(pages[1..], w, limit, x);
        forall n | 1 <= n <= o.fetched
          ensures Fetch(pages'[1..], n) == Fetch(pages[1..], n)
        {
          FetchShift(pages, n);
          FetchShift(pages', n);
        }
        ScanPagesLocal(pages[1..], pages'[1..], w, limit, x);
    }
  }

  /** No page after the stopping request influences the scan, whatever those pages hold. */
  lemma NoFetchAfterStop(pages: seq<seq<Item>>, pages': seq<seq<Item>>, w: Window, limit: Option<int>)
    requires forall n :: 1 <= n <= Scan(pages, w, limit).fetched ==> Fetch(pages', n) == Fetch(pages, n)
    ensures Scan(pages', w, limit) == Scan(pages, w, limit)
  {
    ScanPagesLocal(pages, pages', w, limit, map[]);
  }

  /** An item newer than the end date is skipped and the walk goes on as if it were absent. */
  lemma NewerItemIsSkipped(a: seq<Item>, it: Item, rest: seq<Item>, w: Window, limit: Option<int>, acc: map<int, IssueRecord>)
    requires ScanItems(a, w, limit, acc).Continue?
    requires AfterEnd(w, it.createdAt)
    ensures ScanItems(a + [it] + rest, w, limit, acc) == ScanItems(a + rest, w, limit, acc)
  {
    assert a + [it] + rest == a + ([it] + rest);
    ScanItemsAppend(a, [it] + rest, w, limit, acc);
    ScanItemsAppend(a, rest, w, limit, acc);
    assert ([it] + rest)[1..] == rest;
  }

  /** The first item older than the start date (and not newer than the end) ends the walk; nothing after it is stored. */
  lemma OlderItemEndsWalk(a: seq<Item>, it: Item, rest: seq<Item>, w: Window, limit: Option<int>, acc: map<int, IssueRecord>)
    requires ScanItems(a, w, limit, acc).Continue?
    requires BeforeStart(w, it.createdAt) && !AfterEnd(w, it.createdAt)
    ensures ScanItems(a + [it] + rest, w, limit, acc) == Halt(ScanItems(a, w, limit, acc).acc, PassedStart)
  {
    assert a + [it] + rest == a + ([it] + rest);
    ScanItemsAppend(a, [it] + rest, w, limit, acc);
  }

  /**
   * If the scan got through pages 1 .. p-1 and page `p` holds an item older than
   * the start date after a prefix `a` that does not stop it, then the scan makes
   * exactly `p` requests, stops for that reason, and holds what it held after `a`:
   * nothing later on page `p` or on any later page.
   */
  lemma {:induction false} OlderItemEndsScan(pages: seq<seq<Item>>, p: nat, a: seq<Item>, it: Item, rest: seq<Item>,
                                             w: Window, limit: Option<int>, acc: map<int, IssueRecord>)
    requires 1 <= p <= |pages|
    requires ScanPages(pages[..p - 1], w, limit, acc).why == Exhausted
    requires ScanPages(pages[..p - 1], w, limit, acc).fetched == p
    requires pages[p - 1] == a + [it] + rest
    requires ScanItems(a, w, limit, ScanPages(pages[..p - 1], w, limit, acc).items).Continue?
    requires BeforeStart(w, it.createdAt) && !AfterEnd(w, it.createdAt)
    ensures ScanPages(pages, w, limit, acc) ==
      Outcome(ScanItems(a, w, limit, ScanPages(pages[..p - 1], w, limit, acc).items).acc, p, PassedStart)
    decreases p
  {
    var x := ScanPages(pages[..p - 1], w, limit, acc).items;
    if p == 1 {
      assert pages[..0] == [];
      OlderItemEndsWalk(a, it, rest, w, limit, acc);
    } else {
      var prefix := pages[..p - 1];
      assert prefix[0] == pages[0];
      assert prefix[1..] == pages[1..][..p - 2];
      match ScanItems(pages[0], w, limit, acc)
      case Halt(_, _) =>
      case Continue(y) =>
        OlderItemEndsScan(pages[1..], p - 1, a, it, rest, w, limit, y);
    }
  }

  /** Under a cap the scan never holds more than the cap, and it stops for the limit exactly when it holds that many. */
  lemma {:induction false} ScanItemsCapped(s: seq<Item>, w: Window, limit: Option<int>, acc: map<int, IssueRecord>)
    requires Capped(limit) && |acc| < Cap(limit)
    ensures var r := ScanItems(s, w, limit, acc);
      && |r.acc| <= Cap(limit)
      && (|r.acc| == Cap(limit) <==> r.Halt? && r.why == LimitReached)
    decreases |s|
  {
    if s != [] {
      var it := s[0];
      if AfterEnd(w, it.createdAt) {
        ScanItemsCapped(s[1..], w, limit, acc);
      } else if !BeforeStart(w, it.createdAt) {
        var acc' := acc[it.number := Project(it)];
        assert |acc'| <= |acc| + 1;
        assert it.number in acc';
        if !LimitHit(limit, |acc'|) {
          ScanItemsCapped(s[1..], w, limit, acc');
        }
      }
    }
  }

  /** Without a cap the walk never stops for the limit. */
  lemma {:induction false} ScanItemsUncapped(s: seq<Item>, w: Window, limit: Option<int>, acc: map<int, IssueRecord>)
    requires !Capped(limit)
    ensures var r := ScanItems(s, w, limit, acc); r.Halt? ==> r.why == PassedStart
    decreases |s|
  {
    if s != [] {
      var it := s[0];
      if AfterEnd(w, it.createdAt) {
        ScanItemsUncapped(s[1..], w, limit, acc);
      } else if !BeforeStart(w, it.createdAt) {
        ScanItemsUncapped(s[1..], w, limit, acc[it.number := Project(it)]);
      }
    }
  }

  /**
   * `if limit and len(items) >= limit: return items`: a capped scan holds at most
   * the cap and ends on the limit exactly when it holds the cap; with `None` or
   * `0` the limit never ends the scan.
   */
  lemma ScanRespectsLimit(pages: seq<seq<Item>>, w: Window, limit: Option<int>)
    ensures var o := Scan(pages, w, limit);
      && (Capped(limit) ==> |o.items| <= Cap(limit) && (o.why == LimitReached <==> |o.items| == Cap(limit)))
      && (!Capped(limit) ==> o.why != LimitReached)
  {
    ScanPagesIsStreamScan(pages, w, limit, map[]);
    if Capped(limit) {
      ScanItemsCapped(Stream(pages), w, limit, map[]);
    } else {
      ScanItemsUncapped(Stream(pages), w, limit, map[]);
    }
  }

  /** Every stored record came from an item of the stream inside the window, under its own number. */
  ghost predicate Faithful(m: map<int, IssueRecord>, w: Window, src: seq<Item>)
  {
    forall k :: k in m ==> m[k].number == k && InWindow(w, m[k].createdAt) && exists it :: it in src && Project(it) == m[k]
  }

  lemma {:induction false} ScanItemsFaithful(s: seq<Item>, w: Window, limit: Option<int>, acc: map<int, IssueRecord>, src: seq<Item>)
    requires Faithful(acc, w, src)
    requires forall it :: it in s ==> it in src
    ensures Faithful(ScanItems(s, w, limit, acc).acc, w, src)
    decreases |s|
  {
    if s != [] {
      var it := s[0];
      assert it in src;
      if AfterEnd(w, it.createdAt) {
        ScanItemsFaithful(s[1..], w, limit, acc, src);
      } else if !BeforeStart(w, it.createdAt) {
        var acc' := acc[it.number := Project(it)];
        assert Faithful(acc', w, src);
        if !LimitHit(limit, |acc'|) {
          ScanItemsFaithful(s[1..], w, limit, acc', src);
        }
      }
    }
  }

  /**
   * Every record the scan returns lies in the window (at or after `start_date`
   * 00:00:00 and at or before `end_date` 23:59:59), is keyed by its own number,
   * and is the record of an item the endpoint returned.
   */
  lemma ScanWithinWindow(pages: seq<seq<Item>>, w: Window, limit: Option<int>)
    ensures var m := Scan(pages, w, limit).items;
      forall k :: k in m ==>
        && m[k].number == k
        && (w.endDay.Some? ==> m[k].createdAt <= EndOfDay(w.endDay.value))
        && (w.startDay.Some? ==> m[k].createdAt >= StartOfDay(w.startDay.value))
        && exists it :: it in Stream(pages) && Project(it) == m[k]
  {
    ScanPagesIsStreamScan(pages, w, limit, map[]);
    ScanItemsFaithful(Stream(pages), w, limit, map[], Stream(pages));
  }

  lemma {:induction false} OldTailFiltersToNothing(s: seq<Item>, w: Window, t: int)
    requires Descending(s)
    requires forall i :: 0 <= i < |s| ==> s[i].createdAt <= t
    requires w.startDay.Some? && t < StartOfDay(w.startDay.value)
    ensures FilterWindow(w, s) == []
    decreases |s|
  {
    if s != [] {
      assert BeforeStart(w, s[0].createdAt);
      OldTailFiltersToNothing(s[1..], w, t);
    }
  }

  /**
   * The key property behind "Stop if we've passed the start date": when items
   * arrive newest first, stopping at the first old item loses nothing. The walk
   * builds the same dictionary as filtering everything to the window first and
   * then collecting up to the limit.
   */
  lemma {:induction false} DescendingWalkIsFilterThenGather(s: seq<Item>, w: Window, limit: Option<int>, acc: map<int, IssueRecord>)
    requires Descending(s)
    ensures ScanItems(s, w, limit, acc).acc == Gather(FilterWindow(w, s), limit, acc)
    decreases |s|
  {
    if s != [] {
      var it := s[0];
      assert Descending(s[1..]);
      if AfterEnd(w, it.createdAt) {
        assert FilterWindow(w, s) == [] + FilterWindow(w, s[1..]) == FilterWindow(w, s[1..]);
        DescendingWalkIsFilterThenGather(s[1..], w, limit, acc);
      } else if BeforeStart(w, it.createdAt) {
        assert FilterWindow(w, s) == [] + FilterWindow(w, s[1..]);
        OldTailFiltersToNothing(s[1..], w, it.createdAt);
      } else {
        var acc' := acc[it.number := Project(it)];
        assert ([it] + FilterWindow(w, s[1..]))[1..] == FilterWindow(w, s[1..]);
        if !LimitHit(limit, |acc'|) {
          DescendingWalkIsFilterThenGather(s[1..], w, limit, acc');
        }
      }
    }
  }

  /** The whole scan, when the endpoint honours the descending order it is asked for. */
  lemma DescendingScanLosesNothing(pages: seq<seq<Item>>, w: Window, limit: Option<int>)
    requires Descending(Stream(pages))
    ensures Scan(pages, w, limit).items == Gather(FilterWindow(w, Stream(pages)), limit, map[])
  {
    ScanPagesIsStreamScan(pages, w, limit, map[]);
    DescendingWalkIsFilterThenGather(Stream(pages), w, limit, map[]);
  }

  /** Without a cap, gathering is building the dictionary from every item. */
  lemma {:induction false} GatherUncapped(s: seq<Item>, limit: Option<int>, acc: map<int, IssueRecord>)
    requires !Capped(limit)
    ensures Gather(s, limit, acc) == InsertAll(s, acc)
    decreases |s|
  {
    if s != [] {
      GatherUncapped(s[1..], limit, acc[s[0].number := Project(s[0])]);
    }
  }

  /**
   * Without a cap and with newest-first arrival, the early-stopped scan returns
   * exactly the dictionary of all in-window items of every page up to the first empty one.
   */
  lemma DescendingUncappedScanIsWindowFilter(pages: seq<seq<Item>>, w: Window, limit: Option<int>)
    requires Descending(Stream(pages)) && !Capped(limit)
    ensures Scan(pages, w, limit).items == InsertAll(FilterWindow(w, Stream(pages)), map[])
  {
    DescendingScanLosesNothing(pages, w, limit);
    GatherUncapped(FilterWindow(w, Stream(pages)), limit, map[]);
  }

  /**
   * Dictionary semantics of `items[item['number']] = ...`: a number is a key
   * exactly when some item carries it (or it was there before), its record is
   * that of the last item carrying it, and a number no item carries keeps its record.
   */
  lemma {:induction false} InsertAllOverwrites(s: seq<Item>, acc: map<int, IssueRecord>, k: int)
    ensures k in InsertAll(s, acc) <==> k in acc || exists i :: 0 <= i < |s| && s[i].number == k
    ensures (forall i :: 0 <= i < |s| ==> s[i].number != k) && k in acc ==> InsertAll(s, acc)[k] == acc[k]
    ensures forall i :: 0 <= i < |s| && s[i].number == k && (forall j :: i < j < |s| ==> s[j].number != k) ==>
      InsertAll(s, acc)[k] == Project(s[i])
    decreases |s|
  {
    if s != [] {
      var acc' := acc[s[0].number := Project(s[0])];
      var t := s[1..];
      InsertAllOverwrites(t, acc', k);
      assert forall j :: 0 <= j < |t| ==> t[j] == s[j + 1];
      forall i | 0 <= i < |s| && s[i].number == k && (forall j :: i < j < |s| ==> s[j].number != k)
        ensures InsertAll(s, acc)[k] == Project(s[i])
      {
        if i > 0 {
          assert t[i - 1] == s[i];
        } else {
          assert forall j :: 0 <= j < |t| ==> t[j].number != k;
        }
      }
      if exists i :: 0 <= i < |s| && s[i].number == k {
        var i :| 0 <= i < |s| && s[i].number == k;
        if i > 0 {
          assert t[i - 1].number == k;
        }
      }
    }
  }

  /**
   * Newest-first order must hold across pages, not only within each page: an
   * old item ending page 1 hides an in-window item on page 2.
   */
  lemma PerPageOrderIsNotEnough()
    ensures var old1 := Item(1, "", "", 0, "", "");
            var new2 := Item(2, "", "", SecondsPerDay, "", "");
            var pages := [[old1], [new2]];
            var w := Window(Some(1), None);
      && Scan(pages, w, None).items == map[]
      && InsertAll(FilterWindow(w, Stream(pages)), map[]) == map[2 := Project(new2)]
  {
    var old1 := Item(1, "", "", 0, "", "");
    var new2 := Item(2, "", "", SecondsPerDay, "", "");
    var pages := [[old1], [new2]];
    var w := Window(Some(1), None);
    assert pages[1..] == [[new2]];
    assert pages[1..][1..] == [];
    assert Stream(pages[1..]) == [new2] + Stream(pages[1..][1..]) == [new2];
    assert Stream(pages) == [old1, new2];
    var f := FilterWindow(w, [old1, new2]);
    assert [old1, new2][1..] == [new2];
    assert [new2][1..] == [];
    assert FilterWindow(w, [new2]) == [new2];
    assert f == [new2];
    assert [new2][1..] == [];
  }
}
