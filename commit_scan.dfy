/**
 * The commit-history scanner (`GitHubIntegration.get_commit_history`). Unlike
 * the issue scanner it never stops on a date: it gathers whole pages until an
 * empty page arrives or `limit` commits are held, cuts the list to `limit`,
 * and only then filters it by the inclusive date window and the author login.
 */
module CommitScan {
  import opened Wrappers
  import opened Dates
  import opened Pages

  /** A commit as the API returns it; `login` is `author.login`, `None` when `author` is null. */
  datatype Commit = Commit(sha: string, authorName: string, date: int, message: string, login: Option<string>)

  /** The record kept for a commit. */
  datatype CommitRecord = CommitRecord(author: string, username: Option<string>, date: int, message: string)

  /** `commit['author']['login']` on a null `author`: Python raises `TypeError`. */
  datatype Error = AuthorMissing(sha: string)

  function Record(c: Commit): CommitRecord
  {
    CommitRecord(c.authorName, c.login, c.date, c.message)
  }

  function Min(a: int, b: int): int
  {
    if a <= b then a else b
  }

  /** Python's `s[:n]`: a negative `n` drops the last `-n` elements. */
  function PyPrefix<T>(s: seq<T>, n: int): (r: seq<T>)
    ensures r <= s
    ensures n >= 0 ==> |r| == Min(n, |s|)
    ensures n < 0 ==> |r| == (if |s| + n >= 0 then |s| + n else 0)
  {
    if n >= 0 then s[..Min(n, |s|)] else if |s| + n >= 0 then s[..|s| + n] else []
  }

  /** A username filters only when it is truthy (given and non-empty). */
  predicate UserActive(username: Option<string>)
  {
    username.Some? && username.value != ""
  }

  /** The condition at the `if` of the filtering loop, when it evaluates without raising. */
  predicate Selected(c: Commit, w: Window, username: Option<string>)
  {
    InWindow(w, c.date) && (!UserActive(username) || c.login == Some(username.value))
  }

  /** The `if` raises: the dates pass, a username is given, and the commit has no linked author. */
  predicate Crashes(c: Commit, w: Window, username: Option<string>)
  {
    InWindow(w, c.date) && UserActive(username) && c.login.None?
  }

  /** The list gathered by the page loop and the number of requests it made. */
  datatype Gathered = Gathered(commits: seq<Commit>, fetched: nat)

  /** The page loop, from the list `acc`. */
  function GatherPages(pages: seq<seq<Commit>>, limit: Option<int>, acc: seq<Commit>): Gathered
    decreases |pages|
  {
    if pages == [] || pages[0] == [] then Gathered(acc, 1)
    else
      var acc' := acc + pages[0];
      if LimitHit(limit, |acc'|) then Gathered(PyPrefix(acc', limit.value), 1)
      else
        var g := GatherPages(pages[1..], limit, acc');
        g.(fetched := g.fetched + 1)
  }

  /** The filtering loop over `cs`, into the dictionary `acc` keyed by `sha`. */
  function FilterCommits(cs: seq<Commit>, w: Window, username: Option<string>, acc: map<string, CommitRecord>)
    : Result<map<string, CommitRecord>, Error>
    decreases |cs|
  {
    if cs == [] then Success(acc)
    else if Crashes(cs[0], w, username) then Failure(AuthorMissing(cs[0].sha))
    else FilterCommits(cs[1..], w, username, if Selected(cs[0], w, username) then acc[cs[0].sha := Record(cs[0])] else acc)
  }

  /** What `get_commit_history` returns. */
  function CommitHistory(pages: seq<seq<Commit>>, w: Window, username: Option<string>, limit: Option<int>)
    : Result<map<string, CommitRecord>, Error>
  {
    FilterCommits(GatherPages(pages, limit, []).commits, w, username, map[])
  }

  /**
   * `get_commit_history`: gather, truncate, then filter. It returns the
   * dictionary (or the error the filter raises) and the page numbers it requested.
   */
  method GetCommitHistory(pages: seq<seq<Commit>>, w: Window, username: Option<string>, limit: Option<int>)
    returns (history: Result<map<string, CommitRecord>, Error>, requested: seq<int>)
    ensures history == CommitHistory(pages, w, username, limit)
    ensures |requested| == GatherPages(pages, limit, []).fetched
    ensures forall i :: 0 <= i < |requested| ==> requested[i] == i + 1
  {
    var commits: seq<Commit> := [];
    requested := [];
    var page := 1;
    while true
      invariant 1 <= page <= |pages| + 1
      invariant |requested| == page - 1
      invariant forall i :: 0 <= i < |requested| ==> requested[i] == i + 1
      invariant var g := GatherPages(pages[page - 1..], limit, commits);
        g.(fetched := g.fetched + page - 1) == GatherPages(pages, limit, [])
      decreases |pages| + 1 - page
    {
      requested := requested + [page];
      var pageCommits := Fetch(pages, page);
      if pageCommits == [] {
        break;
      }
      assert pages[page - 1..][0] == pageCommits;
      assert pages[page - 1..][1..] == pages[page..];
      commits := commits + pageCommits;
      if LimitHit(limit, |commits|) {
        commits := PyPrefix(commits, limit.value);
        break;
      }
      page := page + 1;
    }

    var found: map<string, CommitRecord> := map[];
    for i := 0 to |commits|
      invariant FilterCommits(commits[i..], w, username, found) == FilterCommits(commits, w, username, map[])
    {
      var c := commits[i];
      assert commits[i..][0] == c && commits[i..][1..] == commits[i + 1..];
      if InWindow(w, c.date) && UserActive(username) && c.login.None? {
        return Failure(AuthorMissing(c.sha)), requested;
      }
      if Selected(c, w, username) {
        found := found[c.sha := Record(c)];
      }
    }
    history := Success(found);
  }

  // ---------------------------------------------------------------------------
  // Lemmas.

  /**
   * What the page loop gathers: with no cap, every commit of every page up to
   * the first empty one; with a positive cap `L`, the first `L` of those in
   * arrival order (all of them when there are fewer). No date plays a part.
   */
  lemma {:induction false} GatherIsStreamPrefix(pages: seq<seq<Commit>>, limit: Option<int>, acc: seq<Commit>)
    ensures !Capped(limit) ==> GatherPages(pages, limit, acc).commits == acc + Stream(pages)
    ensures Capped(limit) && limit.value > 0 && |acc| < limit.value ==>
      GatherPages(pages, limit, acc).commits == (acc + Stream(pages))[..Min(limit.value, |acc + Stream(pages)|)]
    decreases |pages|
  {
    if pages == [] || pages[0] == [] {
      assert acc + Stream(pages) == acc;
    } else {
      var acc' := acc + pages[0];
      assert acc + Stream(pages) == acc' + Stream(pages[1..]);
      if LimitHit(limit, |acc'|) {
        if limit.value > 0 {
          assert (acc' + Stream(pages[1..]))[..limit.value] == acc'[..limit.value];
        }
      } else {
        GatherIsStreamPrefix(pages[1..], limit, acc');
      }
    }
  }

  /** A negative limit is always reached by the first non-empty page: that page, less its last `-L` commits, is all that is kept. */
  lemma NegativeLimitKeepsFirstPage(pages: seq<seq<Commit>>, limit: Option<int>)
    requires limit.Some? && limit.value < 0
    ensures GatherPages(pages, limit, []).fetched == 1
    ensures GatherPages(pages, limit, []).commits == PyPrefix(Fetch(pages, 1), limit.value)
  {
  }

  /**
   * Requests go 1, 2, ..., `fetched`, every page before the last request is
   * non-empty, and without a cap the last request is the first empty page.
   */
  lemma {:induction false} GatherShape(pages: seq<seq<Commit>>, limit: Option<int>, acc: seq<Commit>)
    ensures var g := GatherPages(pages, limit, acc);
      && 1 <= g.fetched <= |pages| + 1
      && (forall n :: 1 <= n < g.fetched ==> Fetch(pages, n) != [])
      && (!Capped(limit) ==> Fetch(pages, g.fetched) == [])
    decreases |pages|
  {
    if pages != [] && pages[0] != [] {
      var acc' := acc + pages[0];
      if !LimitHit(limit, |acc'|) {
        GatherShape(pages[1..], limit, acc');
        var g := GatherPages(pages[1..], limit, acc');
        FetchShift(pages, g.fetched);
        forall n | 1 <= n < g.fetched + 1
          ensures Fetch(pages, n) != []
        {
          if n > 1 {
            FetchShift(pages, n - 1);
          }
        }
      }
    }
  }

  /**
   * With a positive cap `L`, the page loop stops requesting as soon as it holds
   * `L` commits: the pages before its last request hold fewer than `L` in all,
   * and the last request either came back empty or brought the total to `L`.
   */
  lemma {:induction false} GatherStopsAtLimit(pages: seq<seq<Commit>>, limit: Option<int>, acc: seq<Commit>)
    requires Capped(limit) && limit.value > 0 && |acc| < limit.value
    ensures var g := GatherPages(pages, limit, acc);
      && 1 <= g.fetched <= |pages| + 1
      && |acc| + |Flat(pages[..g.fetched - 1])| < limit.value
      && (Fetch(pages, g.fetched) == [] ||
          (g.fetched <= |pages| && |acc| + |Flat(pages[..g.fetched])| >= limit.value))
    decreases |pages|
  {
    assert Flat(pages[..0]) == [];
    if pages != [] && pages[0] != [] {
      var acc' := acc + pages[0];
      assert Flat(pages[..1]) == pages[0] + Flat(pages[..1][1..]);
      assert pages[..1][1..] == [];
      if !LimitHit(limit, |acc'|) {
        GatherStopsAtLimit(pages[1..], limit, acc');
        var f := GatherPages(pages[1..], limit, acc').fetched;
        FetchShift(pages, f);
        assert pages[..f][1..] == pages[1..][..f - 1];
        assert Flat(pages[..f]) == pages[0] + Flat(pages[1..][..f - 1]);
        if f <= |pages| - 1 {
          assert pages[..f + 1][1..] == pages[1..][..f];
          assert Flat(pages[..f + 1]) == pages[0] + Flat(pages[1..][..f]);
        }
      }
    }
  }

  /** The page loop reads only the pages it requested: any source that answers those requests alike gathers the same. */
  lemma {:induction false} GatherPagesLocal(pages: seq<seq<Commit>>, pages': seq<seq<Commit>>, limit: Option<int>, acc: seq<Commit>)
    requires forall n :: 1 <= n <= GatherPages(pages, limit, acc).fetched ==> Fetch(pages', n) == Fetch(pages, n)
    ensures GatherPages(pages', limit, acc) == GatherPages(pages, limit, acc)
    decreases |pages|
  {
    assert Fetch(pages', 1) == Fetch(pages, 1);
    if pages != [] && pages[0] != [] {
      assert pages'[0] == pages[0];
      var acc' := acc + pages[0];
      if !LimitHit(limit, |acc'|) {
        var g := GatherPages(pages[1..], limit, acc');
        forall n | 1 <= n <= g.fetched
          ensures Fetch(pages'[1..], n) == Fetch(pages[1..], n)
        {
          FetchShift(pages, n);
          FetchShift(pages', n);
        }
        GatherPagesLocal(pages[1..], pages'[1..], limit, acc');
      }
    }
  }

  /** Every record the filter keeps came from a selected commit with that `sha`. */
  ghost predicate FromSelected(m: map<string, CommitRecord>, src: seq<Commit>, w: Window, username: Option<string>)
  {
    forall sha :: sha in m ==> exists c :: c in src && c.sha == sha && Selected(c, w, username) && Record(c) == m[sha]
  }

  /**
   * The filter raises exactly when some commit passes the dates, a username is
   * given and the commit's author is null. Otherwise it keeps every selected
   * commit's `sha`, keeps the keys it started with, adds at most one key per
   * commit, and every kept record comes from a selected commit.
   */
  lemma {:induction false} FilterCommitsSpec(cs: seq<Commit>, w: Window, username: Option<string>,
                                             acc: map<string, CommitRecord>, src: seq<Commit>)
    requires FromSelected(acc, src, w, username)
    requires forall c :: c in cs ==> c in src
    ensures FilterCommits(cs, w, username, acc).Failure? <==> exists c :: c in cs && Crashes(c, w, username)
    ensures FilterCommits(cs, w, username, acc).Success? ==>
      var m := FilterCommits(cs, w, username, acc).value;
      && FromSelected(m, src, w, username)
      && acc.Keys <= m.Keys
      && (forall c :: c in cs && Selected(c, w, username) ==> c.sha in m)
      && |m| <= |acc| + |cs|
    decreases |cs|
  {
    if cs != [] {
      var c := cs[0];
      assert c in src;
      if !Crashes(c, w, username) {
        var acc' := if Selected(c, w, username) then acc[c.sha := Record(c)] else acc;
        assert |acc'| <= |acc| + 1;
        FilterCommitsSpec(cs[1..], w, username, acc', src);
        assert forall x :: x in cs ==> x == c || x in cs[1..];
      }
    }
  }

  /**
   * Every commit `get_commit_history` returns has an author date inside
   * [`start_date` 00:00:00, `end_date` 23:59:59] and, when a username is given,
   * that author login; it fails exactly when a gathered commit that passes the
   * dates has no linked author while a username is given.
   */
  lemma CommitHistoryWithinWindow(pages: seq<seq<Commit>>, w: Window, username: Option<string>, limit: Option<int>)
    ensures var r := CommitHistory(pages, w, username, limit);
      && (r.Failure? <==> exists c :: c in GatherPages(pages, limit, []).commits && Crashes(c, w, username))
      && (r.Success? ==> forall sha :: sha in r.value ==>
            && (w.startDay.Some? ==> r.value[sha].date >= StartOfDay(w.startDay.value))
            && (w.endDay.Some? ==> r.value[sha].date <= EndOfDay(w.endDay.value))
            && (UserActive(username) ==> r.value[sha].username == Some(username.value)))
  {
    var cs := GatherPages(pages, limit, []).commits;
    FilterCommitsSpec(cs, w, username, map[], cs);
  }

  /** With a positive limit `L`, the returned dictionary holds at most `L` commits. */
  lemma CommitHistoryBounded(pages: seq<seq<Commit>>, w: Window, username: Option<string>, limit: Option<int>)
    requires Capped(limit) && limit.value > 0
    ensures var r := CommitHistory(pages, w, username, limit); r.Success? ==> |r.value| <= limit.value
  {
    GatherIsStreamPrefix(pages, limit, []);
    var cs := GatherPages(pages, limit, []).commits;
    FilterCommitsSpec(cs, w, username, map[], cs);
  }

  /**
   * No early stop on date: without a limit, every commit of every page up to the
   * first empty one that passes the filter is in the result, wherever it sits.
   */
  lemma UncappedHistoryKeepsEverySelected(pages: seq<seq<Commit>>, w: Window, username: Option<string>, limit: Option<int>)
    requires !Capped(limit)
    ensures var r := CommitHistory(pages, w, username, limit);
      r.Success? ==> forall c :: c in Stream(pages) && Selected(c, w, username) ==> c.sha in r.value
  {
    GatherIsStreamPrefix(pages, limit, []);
    assert [] + Stream(pages) == Stream(pages);
    var cs := GatherPages(pages, limit, []).commits;
    FilterCommitsSpec(cs, w, username, map[], cs);
  }
}
