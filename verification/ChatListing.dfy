/**
 Listing the messages of store chats (`list_messages` in src/repositories/chat_repository.ts). Without a cursor, peer
 or thread the newest messages are merged with all unread ones; otherwise there is one plain page.
 */
module ChatListing {
  /** A message of the query's result; `unread` is that it is addressed to the asking store and has no `read_at`. */
  datatype Message = Message(id: nat, unread: bool)

  /** What the first page is asked for; an empty peer or thread is a missing one. */
  datatype Input = Input(peerStore: string, thread: string, limit: nat)

  /** Only the listing of the whole store merges unread messages. */
  predicate MergesUnread(input: Input) { input.peerStore == "" && input.thread == "" }

  datatype Page = Page(messages: seq<Message>, hasMore: bool)

  ghost predicate Ascending(ms: seq<Message>)
  {
    forall i, j :: 0 <= i < j < |ms| ==> ms[i].id < ms[j].id
  }

  // ---------- merging by id ----------

  /** The map that is filled from the list: of messages with one id the last stays. */
  function ById(ms: seq<Message>): (r: map<nat, Message>)
    ensures forall id :: id in r ==> r[id].id == id && r[id] in ms
    ensures forall m :: m in ms ==> m.id in r
  {
    if ms == [] then map[]
    else
      var last := ms[|ms| - 1];
      assert ms == ms[..|ms| - 1] + [last];
      ById(ms[..|ms| - 1])[last.id := last]
  }

  ghost predicate Holds(r: seq<Message>, byId: map<nat, Message>)
  {
    forall m :: m in r <==> m.id in byId && byId[m.id] == m
  }

  function Inserted(r: seq<Message>, m: Message): seq<Message>
  {
    if r == [] || m.id < r[0].id then [m] + r else [r[0]] + Inserted(r[1..], m)
  }

  lemma {:induction false} InsertedIsAscending(r: seq<Message>, m: Message)
    requires Ascending(r) && forall x :: x in r ==> x.id != m.id
    ensures Ascending(Inserted(r, m)) && forall x :: x in Inserted(r, m) <==> x in r || x == m
  {
    if r != [] && m.id >= r[0].id {
      assert r == [r[0]] + r[1..];
      InsertedIsAscending(r[1..], m);
      forall x | x in Inserted(r[1..], m) ensures r[0].id < x.id {
        assert x in r[1..] ==> r[0].id < x.id;
      }
    }
  }

  /** `merge_chat_messages_by_id`: fill the map, then list its values by id. */
  method MergeById(ms: seq<Message>) returns (r: seq<Message>)
    ensures Ascending(r) && Holds(r, ById(ms))
  {
    var byId: map<nat, Message> := map[];
    for i := 0 to |ms|
      invariant byId == ById(ms[..i])
    {
      assert ms[..i + 1][..i] == ms[..i];
      byId := byId[ms[i].id := ms[i]];
    }
    assert ms[..|ms|] == ms;
    r := [];
    var ids := byId.Keys;
    while ids != {}
      invariant ids <= byId.Keys && Ascending(r)
      invariant forall m :: m in r <==> m.id in byId && m.id !in ids && byId[m.id] == m
      decreases |ids|
    {
      var id :| id in ids;
      InsertedIsAscending(r, byId[id]);
      r := Inserted(r, byId[id]);
      ids := ids - {id};
    }
  }

  lemma {:induction false} AscendingUnique(a: seq<Message>, b: seq<Message>)
    requires Ascending(a) && Ascending(b) && forall m :: m in a <==> m in b
    ensures a == b
  {
    assert (a != [] ==> a[0] in a) && (b != [] ==> b[0] in b);
    if a != [] && b != [] {
      assert a == [a[0]] + a[1..] && b == [b[0]] + b[1..];
      assert a[0] in b && b[0] in a;
      assert a[0] == b[0];
      forall m ensures m in a[1..] <==> m in b[1..] {
        assert m in a <==> m in b;
        assert m in a[1..] ==> m.id > a[0].id;
        assert m in b[1..] ==> m.id > b[0].id;
      }
      AscendingUnique(a[1..], b[1..]);
    }
  }

  // ---------- pages ----------

  function Older(ms: seq<Message>, before: nat): seq<Message>
  {
    if ms == [] then []
    else
      var last := ms[|ms| - 1];
      Older(ms[..|ms| - 1], before) + if last.id < before then [last] else []
  }

  function Cut(n: nat, limit: nat): nat { if n > limit then n - limit else 0 }

  /** The page of a `before` cursor: the newest of what is older. */
  function PageBefore(ms: seq<Message>, before: nat, limit: nat): Page
  {
    var older := Older(ms, before);
    Page(older[Cut(|older|, limit)..], |older| > limit)
  }

  function Unread(ms: seq<Message>): seq<Message>
  {
    if ms == [] then []
    else
      var last := ms[|ms| - 1];
      Unread(ms[..|ms| - 1]) + if last.unread then [last] else []
  }

  lemma {:induction false} FiltersAreExact(ms: seq<Message>, before: nat)
    requires Ascending(ms)
    ensures Ascending(Older(ms, before)) && forall m :: m in Older(ms, before) <==> m in ms && m.id < before
    ensures Ascending(Unread(ms)) && forall m :: m in Unread(ms) <==> m in ms && m.unread
  {
    if ms != [] {
      var shorter, last := ms[..|ms| - 1], ms[|ms| - 1];
      assert ms == shorter + [last];
      FiltersAreExact(shorter, before);
      forall i | 0 <= i < |Older(shorter, before)| ensures Older(shorter, before)[i].id < last.id {
        assert Older(shorter, before)[i] in shorter;
      }
      forall i | 0 <= i < |Unread(shorter)| ensures Unread(shorter)[i].id < last.id {
        assert Unread(shorter)[i] in shorter;
      }
    }
  }

  /** The first page: ascending, the newest `limit` messages and, in the whole store, every unread one, each once. */
  ghost predicate IsFirstPage(ms: seq<Message>, input: Input, page: Page)
  {
    && Ascending(page.messages) && (page.hasMore <==> |ms| > input.limit)
    && forall m :: m in page.messages <==>
         m in ms[Cut(|ms|, input.limit)..] || (MergesUnread(input) && m in ms && m.unread)
  }

  method ListFirst(ms: seq<Message>, input: Input) returns (page: Page)
    requires Ascending(ms)
    ensures IsFirstPage(ms, input, page)
  {
    var latest := ms[Cut(|ms|, input.limit)..];
    var unread := if MergesUnread(input) then Unread(ms) else [];
    var merged := MergeById(latest + unread);
    page := Page(merged, |ms| > input.limit);
    FiltersAreExact(ms, 0);
    forall m ensures m in merged <==> m in latest || (MergesUnread(input) && m in ms && m.unread) {
      assert m in latest + unread <==> m in latest || m in unread;
      if m in latest || m in unread {
        SameIdSame(ms, ById(latest + unread)[m.id], m);
      }
    }
  }

  lemma SameIdSame(ms: seq<Message>, m: Message, n: Message)
    requires Ascending(ms) && m in ms && n in ms && m.id == n.id
    ensures m == n
  {
    var i :| 0 <= i < |ms| && ms[i] == m;
    var j :| 0 <= j < |ms| && ms[j] == n;
  }

  // ---------- paging back from the first page ----------

  /** All pages before a cursor, as long as there are more, older ones in front. */
  function WalkBack(ms: seq<Message>, before: nat, limit: nat, fuel: nat): seq<Message>
    decreases fuel
  {
    var page := PageBefore(ms, before, limit);
    if page.hasMore && page.messages != [] && fuel > 0
    then WalkBack(ms, page.messages[0].id, limit, fuel - 1) + page.messages
    else page.messages
  }

  lemma OlderStill(ms: seq<Message>, before: nat, cut: nat)
    requires Ascending(ms) && cut < |Older(ms, before)|
    ensures Older(ms, Older(ms, before)[cut].id) == Older(ms, before)[..cut]
  {
    var older := Older(ms, before);
    FiltersAreExact(ms, before);
    FiltersAreExact(ms, older[cut].id);
    hide Older;
    forall m ensures m in older[..cut] <==> m in Older(ms, older[cut].id) {
      if m in older {
        var i :| 0 <= i < |older| && older[i] == m;
        assert i < cut ==> older[..cut][i] == m;
      }
      assert older[cut] in older;
    }
    AscendingUnique(older[..cut], Older(ms, older[cut].id));
  }

  /** A page holds at most `limit` messages, all older than the cursor, none skipped; and says whether it left any. */
  lemma PageIsNewestOlder(ms: seq<Message>, before: nat, limit: nat, m: Message)
    requires Ascending(ms) && limit >= 1
    ensures var page := PageBefore(ms, before, limit);
            && |page.messages| <= limit && Ascending(page.messages)
            && (m in page.messages ==> m in ms && m.id < before)
            && (m in ms && m.id < before && m !in page.messages ==>
                  page.hasMore && |page.messages| == limit && m.id < page.messages[0].id)
            && (page.hasMore ==> exists x :: x in ms && x.id < before && x !in page.messages)
  {
    FiltersAreExact(ms, before);
    var older := Older(ms, before);
    var cut := Cut(|older|, limit);
    hide Older, Unread;
    if m in older {
      var i :| 0 <= i < |older| && older[i] == m;
      assert i >= cut ==> older[cut..][i - cut] == m;
    }
    if cut > 0 {
      assert older[0] in older && older[0] !in older[cut..];
    }
  }

  /** Paging back from a cursor is complete. */
  lemma {:induction false} WalkBackIsComplete(ms: seq<Message>, before: nat, limit: nat, fuel: nat)
    requires Ascending(ms) && limit >= 1 && fuel >= |Older(ms, before)|
    ensures WalkBack(ms, before, limit, fuel) == Older(ms, before)
    decreases fuel
  {
    hide Older;
    var older := Older(ms, before);
    if |older| > limit {
      var cut := |older| - limit;
      OlderStill(ms, before, cut);
      WalkBackIsComplete(ms, older[cut].id, limit, fuel - 1);
      assert older == older[..cut] + older[cut..];
    } else {
      assert older[0..] == older;
    }
  }

  /** All that a client has in the end that pages back from the oldest message of the first page. */
  ghost predicate GetsAll(ms: seq<Message>, first: Page, limit: nat, fuel: nat)
  {
    forall m :: m in ms ==>
      m in first.messages || (first.messages != [] && m in WalkBack(ms, first.messages[0].id, limit, fuel))
  }

  /** Once a message of the list is unread, all newer ones in it are. */
  predicate UnreadFromThereOn(ms: seq<Message>)
  {
    forall i, j :: 0 <= i < j < |ms| && ms[i].unread ==> ms[j].unread
  }

  /**
   Paging back from the first page brings every message exactly when the listing is of one peer or thread, or no read
   message that is too old for the first page is newer than an unread one.
   */
  lemma PagingFromFirstPageIsComplete(ms: seq<Message>, input: Input, first: Page, fuel: nat)
    requires Ascending(ms) && input.limit >= 1 && IsFirstPage(ms, input, first) && fuel >= |ms|
    ensures GetsAll(ms, first, input.limit, fuel) <==>
              !MergesUnread(input) || UnreadFromThereOn(ms[..Cut(|ms|, input.limit)])
  {
    var cut := Cut(|ms|, input.limit);
    if ms == [] {
      assert first.messages == [] || first.messages[0] in first.messages;
    } else {
      NewestIsReceived(ms, input.limit);
      var oldest := first.messages[0];
      assert oldest in first.messages && oldest in ms;
      var k :| 0 <= k < |ms| && ms[k] == oldest;
      WalkedBack(ms, input, first, fuel);
      hide GetsAll, WalkBack, Cut;
      forall i | 0 <= i < |ms|
        ensures ms[i] in first.messages <==> i >= cut || (MergesUnread(input) && ms[i].unread)
      {
        InLatest(ms, cut, i);
      }
      if GetsAll(ms, first, input.limit, fuel) && MergesUnread(input) {
        forall i, j | 0 <= i < j < cut && ms[i].unread ensures ms[j].unread {
          assert ms[i] in first.messages && ms[j] in ms;
          OldestIsFirst(first.messages, ms[i]);
        }
      }
    }
  }

  /** A client gets exactly what was on the first page or is older than its oldest message. */
  lemma WalkedBack(ms: seq<Message>, input: Input, first: Page, fuel: nat)
    requires Ascending(ms) && input.limit >= 1 && IsFirstPage(ms, input, first) && fuel >= |ms| && first.messages != []
    ensures GetsAll(ms, first, input.limit, fuel) <==>
              forall i :: 0 <= i < |ms| ==> ms[i] in first.messages || ms[i].id < first.messages[0].id
  {
    var oldest := first.messages[0];
    OlderAreFewer(ms, oldest.id);
    WalkBackIsComplete(ms, oldest.id, input.limit, fuel);
    FiltersAreExact(ms, oldest.id);
    hide Older, WalkBack, Cut, IsFirstPage;
    if GetsAll(ms, first, input.limit, fuel) {
      forall i | 0 <= i < |ms| ensures ms[i] in first.messages || ms[i].id < oldest.id {
        assert ms[i] in ms;
      }
    }
  }

  lemma OldestIsFirst(received: seq<Message>, m: Message)
    requires Ascending(received) && m in received
    ensures received[0].id <= m.id
  {
  }

  lemma InLatest(ms: seq<Message>, cut: nat, i: nat)
    requires Ascending(ms) && cut <= |ms| && i < |ms|
    ensures ms[i] in ms[cut..] <==> i >= cut
  {
    if i >= cut {
      assert ms[cut..][i - cut] == ms[i];
    }
  }

  lemma NewestIsReceived(ms: seq<Message>, limit: nat)
    requires limit >= 1 && ms != []
    ensures ms[|ms| - 1] in ms[Cut(|ms|, limit)..]
  {
    var latest := ms[Cut(|ms|, limit)..];
    assert latest[|latest| - 1] == ms[|ms| - 1];
  }

  /** An old unread message hides the read one after it, in the listing of the whole store and in no other. */
  lemma OldUnreadHidesMessages(input: Input, first: Page, fuel: nat)
    requires input.limit == 1 && fuel >= 3
    requires IsFirstPage([Message(1, true), Message(2, false), Message(3, false)], input, first)
    ensures var ms := [Message(1, true), Message(2, false), Message(3, false)];
            GetsAll(ms, first, 1, fuel) <==> input.peerStore != "" || input.thread != ""
  {
    var ms := [Message(1, true), Message(2, false), Message(3, false)];
    PagingFromFirstPageIsComplete(ms, input, first, fuel);
    assert ms[..2][0] == ms[0] && ms[..2][1] == ms[1];
  }

  lemma {:induction false} OlderAreFewer(ms: seq<Message>, before: nat)
    ensures |Older(ms, before)| <= |ms|
  {
    if ms != [] {
      OlderAreFewer(ms[..|ms| - 1], before);
    }
  }
}
