/** Chat history pages (GetMessages in backend/internal/storage/sqlite_repo.go) and the walk over them. */
module MessageHistory {
  import opened Basics

  /** A row of messages joined with its sender; the table is ordered by id. */
  datatype Message = Message(id: int, channelId: uint32, senderId: uint32, content: string)

  datatype Page = Page(messages: seq<Message>, hasMore: bool)

  datatype StorageError = ChannelNotFound

  ghost predicate Table(rows: seq<Message>) {
    && (forall i :: 0 <= i < |rows| ==> rows[i].id > 0)
    && forall i, j :: 0 <= i < j < |rows| ==> rows[i].id < rows[j].id
  }

  // ---------------------------------------------------------------------------
  // The query

  predicate Matches(m: Message, channel: uint32, before: int) {
    m.channelId == channel && (before == 0 || m.id < before)
  }

  /** WHERE channel_id = ? [AND id < ?], in id order. */
  function Select(rows: seq<Message>, channel: uint32, before: int): seq<Message> {
    if rows == [] then []
    else
      var last := rows[|rows| - 1];
      Select(rows[..|rows| - 1], channel, before) + if Matches(last, channel, before) then [last] else []
  }

  /** ORDER BY id DESC LIMIT n: the newest n matches, newest first. */
  function Newest(rows: seq<Message>, channel: uint32, before: int, n: nat): (r: seq<Message>)
    ensures |r| <= n
  {
    if rows == [] || n == 0 then []
    else
      var front, last := rows[..|rows| - 1], rows[|rows| - 1];
      if Matches(last, channel, before) then [last] + Newest(front, channel, before, n - 1)
      else Newest(front, channel, before, n)
  }

  function EffectiveLimit(limit: int): nat {
    if limit <= 0 || limit > 100 then 50 else limit
  }

  function Reverse<T>(s: seq<T>): (r: seq<T>)
    ensures |r| == |s|
    ensures forall i :: 0 <= i < |s| ==> r[i] == s[|s| - 1 - i]
  {
    if s == [] then [] else Reverse(s[1..]) + [s[0]]
  }

  /** The last n, or all if there are fewer. */
  function Tail<T>(s: seq<T>, n: nat): seq<T> {
    if n < |s| then s[|s| - n..] else s
  }

  function Cut<T>(s: seq<T>, n: nat): seq<T> {
    if |s| > n then s[..n] else s
  }

  lemma ReverseSnoc<T>(s: seq<T>, x: T)
    ensures Reverse(s + [x]) == [x] + Reverse(s)
  {
  }

  lemma ReverseOfTail<T>(rest: seq<T>, last: T, n: nat)
    requires n > 0
    ensures Reverse(Tail(rest + [last], n)) == [last] + Reverse(Tail(rest, n - 1))
  {
    ReverseSnoc(Tail(rest, n - 1), last);
    if n - 1 < |rest| {
      assert (rest + [last])[|rest| + 1 - n..] == rest[|rest| + 1 - n..] + [last];
    } else {
      assert Tail(rest + [last], n) == rest + [last];
    }
  }

  /** The limited descending query is the tail of the ascending selection, reversed. */
  lemma {:induction false} NewestIsTail(rows: seq<Message>, channel: uint32, before: int, n: nat)
    ensures Newest(rows, channel, before, n) == Reverse(Tail(Select(rows, channel, before), n))
  {
    var all := Select(rows, channel, before);
    if rows == [] || n == 0 {
      assert Tail(all, n) == [];
    } else {
      var front, last := rows[..|rows| - 1], rows[|rows| - 1];
      var rest := Select(front, channel, before);
      if Matches(last, channel, before) {
        NewestIsTail(front, channel, before, n - 1);
        ReverseOfTail(rest, last, n);
        assert all == rest + [last];
      } else {
        NewestIsTail(front, channel, before, n);
        assert all == rest;
      }
    }
  }

  /** A page: the newest `limit` matches in chronological order, and whether older ones were cut off. */
  ghost function PageOf(rows: seq<Message>, channel: uint32, before: int, limit: int): Page {
    var all, n := Select(rows, channel, before), EffectiveLimit(limit);
    Page(Tail(all, n), |all| > n)
  }

  /** A page has the size asked for, from 1 to 100, or else 50; fewer messages only if there are no more. */
  lemma PageSize(rows: seq<Message>, channel: uint32, before: int, limit: int)
    ensures var page, n := PageOf(rows, channel, before, limit), |Select(rows, channel, before)|;
      var size := if 1 <= limit && limit <= 100 then limit else 50;
      |page.messages| == (if n < size then n else size) && (page.hasMore <==> n > size)
  {
  }

  lemma TailOfTail(all: seq<Message>, limit: nat)
    ensures var newest := Reverse(Tail(all, limit + 1));
      Reverse(Cut(newest, limit)) == Tail(all, limit) && (|newest| > limit <==> |all| > limit)
  {
  }

  /** Cutting the row too many off the newest-first list, and reversing it, gives the page. */
  lemma PageFromNewest(rows: seq<Message>, channel: uint32, before: int, limit: int)
    ensures var n := EffectiveLimit(limit); var newest := Newest(rows, channel, before, n + 1);
      PageOf(rows, channel, before, limit) == Page(Reverse(Cut(newest, n)), |newest| > n)
  {
    var n, all := EffectiveLimit(limit), Select(rows, channel, before);
    NewestIsTail(rows, channel, before, n + 1);
    TailOfTail(all, n);
  }

  /** The final loop: fills a slice of the same length from the back. */
  method Reversed(fetched: seq<Message>) returns (messages: seq<Message>)
    ensures messages == Reverse(fetched)
  {
    var n := |fetched|;
    var slice := new Message[n](_ => Message(0, 0, 0, ""));
    for i := 0 to n
      invariant forall k :: n - i <= k < n ==> slice[k] == fetched[n - 1 - k]
    {
      slice[n - 1 - i] := fetched[i];
    }
    return slice[..];
  }

  /** The loop over the query's rows. */
  method Fetch(cursor: seq<Message>) returns (fetched: seq<Message>)
    ensures fetched == cursor
  {
    fetched := [];
    while |fetched| < |cursor|
      invariant fetched <= cursor
    {
      fetched := fetched + [cursor[|fetched|]];
    }
  }

  /** GetMessages: fetches one row more than a page, cuts it off again, and reverses what is left. */
  method GetMessages(rows: seq<Message>, channels: set<uint32>, channel: uint32, before: int, limit: int)
    returns (result: Result<Page, StorageError>)
    ensures channel !in channels ==> result == Err(ChannelNotFound)
    ensures channel in channels ==> result == Ok(PageOf(rows, channel, before, limit))
  {
    var lim := limit;
    if lim <= 0 || lim > 100 {
      lim := 50;
    }
    if channel !in channels {
      return Err(ChannelNotFound);
    }
    var cursor := Newest(rows, channel, before, lim + 1);
    var fetched := Fetch(cursor);
    var hasMore := |fetched| > lim;
    if hasMore {
      fetched := fetched[..lim];
    }
    var messages := Reversed(fetched);
    PageFromNewest(rows, channel, before, limit);
    return Ok(Page(messages, hasMore));
  }

  // ---------------------------------------------------------------------------
  // What the selection means

  lemma {:induction false} SelectFilters(rows: seq<Message>, channel: uint32, before: int, m: Message)
    ensures m in Select(rows, channel, before) <==> m in rows && Matches(m, channel, before)
  {
    if rows == [] {
    } else {
      var front, last := rows[..|rows| - 1], rows[|rows| - 1];
      SelectFilters(front, channel, before, m);
      assert m in rows <==> m in front || m == last;
    }
  }

  lemma {:induction false} SelectSorted(rows: seq<Message>, channel: uint32, before: int)
    requires Table(rows)
    ensures Table(Select(rows, channel, before))
  {
    if rows == [] {
    } else {
      var front, last := rows[..|rows| - 1], rows[|rows| - 1];
      SelectSorted(front, channel, before);
      forall m | m in Select(front, channel, before) ensures m.id < last.id {
        SelectFilters(front, channel, before, m);
      }
    }
  }

  lemma {:induction false} SelectOfAppend(a: seq<Message>, b: seq<Message>, channel: uint32, before: int)
    ensures Select(a + b, channel, before) == Select(a, channel, before) + Select(b, channel, before)
  {
    if b == [] {
      assert a + b == a;
    } else {
      assert (a + b)[..|a + b| - 1] == a + b[..|b| - 1];
      SelectOfAppend(a, b[..|b| - 1], channel, before);
    }
  }

  lemma {:induction false} SelectNone(rows: seq<Message>, channel: uint32, before: int)
    requires before > 0 && forall i :: 0 <= i < |rows| ==> rows[i].id >= before
    ensures Select(rows, channel, before) == []
  {
    if rows == [] {
    } else {
      SelectNone(rows[..|rows| - 1], channel, before);
    }
  }

  lemma {:induction false} SelectSame(rows: seq<Message>, channel: uint32, before: int, later: int)
    requires before > 0 && forall i :: 0 <= i < |rows| ==> rows[i].id < before && (later == 0 || rows[i].id < later)
    ensures Select(rows, channel, before) == Select(rows, channel, later)
  {
    if rows == [] {
    } else {
      SelectSame(rows[..|rows| - 1], channel, before, later);
    }
  }

  /** Using the id of one selected message as the cursor selects exactly the messages before it. */
  lemma {:induction false} CursorCuts(rows: seq<Message>, channel: uint32, before: int, k: nat)
    requires Table(rows) && k < |Select(rows, channel, before)|
    ensures var all := Select(rows, channel, before); Select(rows, channel, all[k].id) == all[..k]
  {
    var front, last := rows[..|rows| - 1], rows[|rows| - 1];
    var all, rest := Select(rows, channel, before), Select(front, channel, before);
    SelectFilters(rows, channel, before, all[k]);
    if k < |rest| {
      CursorCuts(front, channel, before, k);
      SelectFilters(front, channel, before, rest[k]);
    } else {
      SelectSame(front, channel, last.id, before);
    }
  }

  // ---------------------------------------------------------------------------
  // The walk

  /** The table only grows, by messages with higher ids. */
  ghost predicate Growing(tables: nat -> seq<Message>) {
    (forall i: nat :: Table(tables(i))) && forall i: nat :: tables(i) <= tables(i + 1)
  }

  /** New messages do not show up below a cursor taken from an existing one. */
  lemma GrowthIsInvisible(tables: nat -> seq<Message>, i: nat, channel: uint32, cursor: int)
    requires Growing(tables) && exists m :: m in tables(i) && m.id == cursor
    ensures Select(tables(i + 1), channel, cursor) == Select(tables(i), channel, cursor)
  {
    var now, next := tables(i), tables(i + 1);
    var extra := next[|now|..];
    assert next == now + extra;
    SelectOfAppend(now, extra, channel, cursor);
    var m :| m in now && m.id == cursor;
    var k :| 0 <= k < |now| && now[k] == m;
    assert next[k] == m;
    forall j | 0 <= j < |extra| ensures extra[j].id >= cursor {
      assert extra[j] == next[|now| + j];
    }
    SelectNone(extra, channel, cursor);
  }

  /** The next page starts where this one ended, whatever was inserted meanwhile. */
  lemma NextPage(tables: nat -> seq<Message>, channel: uint32, i: nat, cursor: int, limit: int)
    requires Growing(tables) && PageOf(tables(i), channel, cursor, limit).hasMore
    ensures var page := PageOf(tables(i), channel, cursor, limit);
      && page.messages != []
      && Select(tables(i), channel, cursor) == Select(tables(i + 1), channel, page.messages[0].id) + page.messages
  {
    var all, n := Select(tables(i), channel, cursor), EffectiveLimit(limit);
    var first := all[|all| - n];
    CursorCuts(tables(i), channel, cursor, |all| - n);
    SelectFilters(tables(i), channel, cursor, first);
    GrowthIsInvisible(tables, i, channel, first.id);
  }

  /**
  Follows the pages from the i-th state of the table: each request passes the first id of the page before, until there
  is no more.  Returns all messages received, oldest first.
  */
  ghost function Walk(tables: nat -> seq<Message>, channel: uint32, i: nat, cursor: int, limit: nat -> int): seq<Message>
    requires Growing(tables)
    decreases |Select(tables(i), channel, cursor)|
  {
    var page := PageOf(tables(i), channel, cursor, limit(i));
    if !page.hasMore then page.messages
    else
      NextPage(tables, channel, i, cursor, limit(i));
      Walk(tables, channel, i + 1, page.messages[0].id, limit) + page.messages
  }

  lemma {:induction false} WalkIsSelection(tables: nat -> seq<Message>, channel: uint32, i: nat, cursor: int, limit: nat -> int)
    requires Growing(tables)
    ensures Walk(tables, channel, i, cursor, limit) == Select(tables(i), channel, cursor)
    decreases |Select(tables(i), channel, cursor)|
  {
    var page := PageOf(tables(i), channel, cursor, limit(i));
    if page.hasMore {
      NextPage(tables, channel, i, cursor, limit(i));
      WalkIsSelection(tables, channel, i + 1, page.messages[0].id, limit);
    }
  }

  /**
  The walk from the newest page ends and yields every message the channel had at its start exactly once, in id order,
  and nothing else, whatever page sizes are asked for and whatever is inserted during the walk.
  */
  lemma WalkYieldsEverythingOnce(tables: nat -> seq<Message>, channel: uint32, limit: nat -> int)
    requires Growing(tables)
    ensures var walked := Walk(tables, channel, 0, 0, limit);
      && (forall m :: m in walked <==> m in tables(0) && m.channelId == channel)
      && forall i, j :: 0 <= i < j < |walked| ==> walked[i].id < walked[j].id
  {
    WalkIsSelection(tables, channel, 0, 0, limit);
    SelectSorted(tables(0), channel, 0);
    forall m ensures m in Select(tables(0), channel, 0) <==> m in tables(0) && m.channelId == channel {
      SelectFilters(tables(0), channel, 0, m);
    }
  }
}
