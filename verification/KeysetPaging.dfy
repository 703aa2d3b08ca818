/**
 Paging through notifications by id (src/repositories/notification_repository.ts). The collection is listed in the
 order of its `_id` index. A cursor that is not a valid id counts as missing.
 */
module KeysetPaging {
  import opened Redis

  datatype Notification = Notification(id: nat, store: string, user: Option<string>, read: bool)

  /** `user` is already trimmed. */
  datatype Input = Input(
    store: string, user: string, unreadOnly: bool, limit: nat, after: Option<nat>, before: Option<nat>)

  datatype Page = Page(notifications: seq<Notification>, hasMore: bool, oldest: Option<nat>, newest: Option<nat>)

  /** `build_notification_visibility_conditions` and the rest of the query but its cursor. */
  predicate Visible(n: Notification, input: Input)
  {
    && n.store == input.store
    && (n.user.None? || (input.user != "" && n.user.value == input.user))
    && (input.unreadOnly ==> !n.read)
  }

  predicate InRange(id: nat, input: Input)
  {
    if input.after.Some? then id > input.after.value
    else if input.before.Some? then id < input.before.value
    else true
  }

  /** `find(query)` in the order of the index. */
  function Found(collection: seq<Notification>, input: Input): seq<Notification>
  {
    if collection == [] then []
    else
      var last := collection[|collection| - 1];
      Found(collection[..|collection| - 1], input) +
      if Visible(last, input) && InRange(last.id, input) then [last] else []
  }

  function Reversed<T>(s: seq<T>): (r: seq<T>)
    ensures |r| == |s| && forall i :: 0 <= i < |s| ==> r[i] == s[|s| - 1 - i]
  {
    seq(|s|, i requires 0 <= i < |s| => s[|s| - 1 - i])
  }

  function Take<T>(s: seq<T>, n: nat): seq<T> { if n <= |s| then s[..n] else s }

  /** `list_notifications` */
  function List(collection: seq<Notification>, input: Input): Page
  {
    var found := Found(collection, input);
    var candidates := Take(if input.after.Some? then found else Reversed(found), input.limit + 1);
    var page := Take(candidates, input.limit);
    var notifications := if input.after.Some? then page else Reversed(page);
    Page(notifications, |candidates| > input.limit,
         if notifications == [] then None else Some(notifications[0].id),
         if notifications == [] then None else Some(notifications[|notifications| - 1].id))
  }

  /** What a client gets that follows `oldest_notification_id` while `has_more`, older pages in front. */
  function WalkBack(collection: seq<Notification>, input: Input, fuel: nat): seq<Notification>
    decreases fuel
  {
    var page := List(collection, input);
    if page.hasMore && page.oldest.Some? && fuel > 0
    then WalkBack(collection, input.(before := page.oldest), fuel - 1) + page.notifications
    else page.notifications
  }

  /** And one that follows `newest_notification_id` with the `after` cursor. */
  function WalkForward(collection: seq<Notification>, input: Input, fuel: nat): seq<Notification>
    decreases fuel
  {
    var page := List(collection, input);
    if page.hasMore && page.newest.Some? && fuel > 0
    then page.notifications + WalkForward(collection, input.(after := page.newest), fuel - 1)
    else page.notifications
  }

  ghost predicate Indexed(collection: seq<Notification>)
  {
    forall i, j :: 0 <= i < j < |collection| ==> collection[i].id < collection[j].id
  }

  lemma IndexedParts(s: seq<Notification>)
    requires s != [] && Indexed(s)
    ensures Indexed(s[..|s| - 1]) && s == s[..|s| - 1] + [s[|s| - 1]]
    ensures forall n :: n in s[..|s| - 1] ==> n.id < s[|s| - 1].id
  {
  }

  /** The query finds the visible notifications in range, in order. */
  lemma {:induction false} FoundIsVisible(collection: seq<Notification>, input: Input)
    requires Indexed(collection)
    ensures Indexed(Found(collection, input)) && |Found(collection, input)| <= |collection|
    ensures forall n :: n in Found(collection, input) <==> n in collection && Visible(n, input) && InRange(n.id, input)
  {
    if collection != [] {
      IndexedParts(collection);
      var shorter, last := collection[..|collection| - 1], collection[|collection| - 1];
      FoundIsVisible(shorter, input);
      assert forall n :: n in collection <==> n in shorter || n == last;
      hide Visible, InRange;
      forall i | 0 <= i < |Found(shorter, input)| ensures Found(shorter, input)[i].id < last.id {
        assert Found(shorter, input)[i] in shorter;
      }
    }
  }

  /** Two ascending lists with the same elements are equal. */
  lemma {:induction false} IndexedUnique(a: seq<Notification>, b: seq<Notification>)
    requires Indexed(a) && Indexed(b) && forall n :: n in a <==> n in b
    ensures a == b
  {
    assert (a != [] ==> a[0] in a) && (b != [] ==> b[0] in b);
    if a != [] && b != [] {
      var (x, y) := (a[|a| - 1], b[|b| - 1]);
      IndexedParts(a);
      IndexedParts(b);
      assert x in b && y in a;
      assert x == y;
      var a', b' := a[..|a| - 1], b[..|b| - 1];
      forall n ensures n in a' <==> n in b' {
        assert n in a <==> n in b;
        assert n in a <==> n in a' || n == x;
        assert n in b <==> n in b' || n == x;
      }
      IndexedUnique(a', b');
    }
  }

  /** A page without `after` is the newest part of what is in range, and says whether anything older is left. */
  lemma PageIsSuffix(collection: seq<Notification>, input: Input)
    requires Indexed(collection) && input.after.None?
    ensures var found := Found(collection, input);
            var cut := if |found| > input.limit then |found| - input.limit else 0;
            List(collection, input).notifications == found[cut..] && (List(collection, input).hasMore <==> cut > 0)
  {
    var found := Found(collection, input);
    var cut := if |found| > input.limit then |found| - input.limit else 0;
    hide Found;
    assert List(collection, input).notifications == found[cut..];
  }

  lemma SlicesById(found: seq<Notification>, cut: nat, n: Notification)
    requires Indexed(found) && cut <= |found|
    ensures cut < |found| ==> (n in found[..cut] <==> n in found && n.id < found[cut].id)
    ensures 0 < cut ==> (n in found[cut..] <==> n in found && n.id > found[cut - 1].id)
    ensures Indexed(found[..cut]) && Indexed(found[cut..])
  {
    if n in found {
      var i :| 0 <= i < |found| && found[i] == n;
      assert i < cut ==> found[..cut][i] == n;
      assert i >= cut ==> found[cut..][i - cut] == n;
    }
  }

  /** What is older than a found notification is what was found before it. */
  lemma OlderPart(collection: seq<Notification>, input: Input, cut: nat)
    requires Indexed(collection) && input.after.None? && cut < |Found(collection, input)|
    ensures var found := Found(collection, input);
            Found(collection, input.(before := Some(found[cut].id))) == found[..cut]
  {
    var found := Found(collection, input);
    var older := input.(before := Some(found[cut].id));
    FoundIsVisible(collection, input);
    FoundIsVisible(collection, older);
    assert found[cut] in found;
    hide Found, Indexed;
    forall n ensures n in found[..cut] <==> n in Found(collection, older) {
      SlicesById(found, cut, n);
      assert Visible(n, older) == Visible(n, input);
    }
    SlicesById(found, cut, found[cut]);
    IndexedUnique(found[..cut], Found(collection, older));
  }

  lemma NewerPart(collection: seq<Notification>, input: Input, cut: nat)
    requires Indexed(collection) && input.after.Some? && 0 < cut <= |Found(collection, input)|
    ensures var found := Found(collection, input);
            Found(collection, input.(after := Some(found[cut - 1].id))) == found[cut..]
  {
    var found := Found(collection, input);
    var newer := input.(after := Some(found[cut - 1].id));
    FoundIsVisible(collection, input);
    FoundIsVisible(collection, newer);
    assert found[cut - 1] in found;
    hide Found, Indexed;
    forall n ensures n in found[cut..] <==> n in Found(collection, newer) {
      SlicesById(found, cut, n);
      assert Visible(n, newer) == Visible(n, input);
    }
    SlicesById(found, cut, found[cut - 1]);
    IndexedUnique(found[cut..], Found(collection, newer));
  }

  /**
   On a fixed collection, following the pages back ends after at most one request a notification, and the joined
   pages are all visible notifications in ascending order, each once.
   */
  lemma {:induction false} PagingBackIsComplete(collection: seq<Notification>, input: Input, fuel: nat)
    requires Indexed(collection) && input.after.None? && input.limit >= 1 && fuel >= |Found(collection, input)|
    ensures WalkBack(collection, input, fuel) == Found(collection, input)
    decreases fuel
  {
    hide Found, List, WalkBack;
    var found := Found(collection, input);
    if |found| > input.limit {
      var cut := |found| - input.limit;
      OlderPart(collection, input, cut);
      PagingBackIsComplete(collection, input.(before := Some(found[cut].id)), fuel - 1);
      OnePageBack(collection, input, fuel);
    } else {
      PageIsSuffix(collection, input);
      WalkBackUnfolds(collection, input, fuel);
      assert found[0..] == found;
    }
  }

  lemma OnePageBack(collection: seq<Notification>, input: Input, fuel: nat)
    requires Indexed(collection) && input.after.None? && input.limit >= 1 && fuel > 0
    requires |Found(collection, input)| > input.limit
    requires var found := Found(collection, input);
             var cut := |found| - input.limit;
             WalkBack(collection, input.(before := Some(found[cut].id)), fuel - 1) == found[..cut]
    ensures WalkBack(collection, input, fuel) == Found(collection, input)
  {
    hide Found, List, WalkBack;
    var found := Found(collection, input);
    var cut := |found| - input.limit;
    PageIsSuffix(collection, input);
    PageCursors(collection, input);
    WalkBackUnfolds(collection, input, fuel);
    assert found == found[..cut] + found[cut..];
  }

  lemma WalkBackUnfolds(collection: seq<Notification>, input: Input, fuel: nat)
    ensures var page := List(collection, input);
            WalkBack(collection, input, fuel) ==
              if page.hasMore && page.oldest.Some? && fuel > 0
              then WalkBack(collection, input.(before := page.oldest), fuel - 1) + page.notifications
              else page.notifications
  {
  }

  lemma WalkForwardUnfolds(collection: seq<Notification>, input: Input, fuel: nat)
    ensures var page := List(collection, input);
            WalkForward(collection, input, fuel) ==
              if page.hasMore && page.newest.Some? && fuel > 0
              then page.notifications + WalkForward(collection, input.(after := page.newest), fuel - 1)
              else page.notifications
  {
  }

  lemma PageCursors(collection: seq<Notification>, input: Input)
    ensures var page := List(collection, input);
            && (page.notifications != [] ==> page.oldest == Some(page.notifications[0].id))
            && (page.notifications != [] ==> page.newest == Some(page.notifications[|page.notifications| - 1].id))
  {
  }

  /** A page with `after` is the oldest part of what is in range. */
  lemma PageIsPrefix(collection: seq<Notification>, input: Input)
    requires input.after.Some?
    ensures var found := Found(collection, input);
            && List(collection, input).notifications == Take(found, input.limit)
            && (List(collection, input).hasMore <==> |found| > input.limit)
  {
    var found := Found(collection, input);
    hide Found;
    assert Take(Take(found, input.limit + 1), input.limit) == Take(found, input.limit);
  }

  /** The same for the `after` cursor: it completes the list that the client has. */
  lemma {:induction false} PagingForwardIsComplete(collection: seq<Notification>, input: Input, fuel: nat)
    requires Indexed(collection) && input.after.Some? && input.limit >= 1 && fuel >= |Found(collection, input)|
    ensures WalkForward(collection, input, fuel) == Found(collection, input)
    decreases fuel
  {
    hide Found, List, WalkForward;
    var found := Found(collection, input);
    if |found| > input.limit {
      NewerPart(collection, input, input.limit);
      PagingForwardIsComplete(collection, input.(after := Some(found[input.limit - 1].id)), fuel - 1);
      OnePageForward(collection, input, fuel);
    } else {
      PageIsPrefix(collection, input);
      WalkForwardUnfolds(collection, input, fuel);
    }
  }

  lemma OnePageForward(collection: seq<Notification>, input: Input, fuel: nat)
    requires input.after.Some? && input.limit >= 1 && fuel > 0 && |Found(collection, input)| > input.limit
    requires var found := Found(collection, input);
             WalkForward(collection, input.(after := Some(found[input.limit - 1].id)), fuel - 1) == found[input.limit..]
    ensures WalkForward(collection, input, fuel) == Found(collection, input)
  {
    hide Found, List, WalkForward;
    var found := Found(collection, input);
    PageIsPrefix(collection, input);
    PageCursors(collection, input);
    WalkForwardUnfolds(collection, input, fuel);
    assert found == found[..input.limit] + found[input.limit..];
  }

  /** What a client sees that pages back from the newest: exactly what it may see, each once and in order. */
  lemma NothingIsMissed(collection: seq<Notification>, input: Input, n: Notification)
    requires Indexed(collection) && input.after.None? && input.before.None? && input.limit >= 1
    ensures n in WalkBack(collection, input, |collection|) <==>
              && n in collection && n.store == input.store && (input.unreadOnly ==> !n.read)
              && (n.user == None || (n.user == Some(input.user) && input.user != ""))
    ensures Indexed(WalkBack(collection, input, |collection|))
  {
    FoundIsVisible(collection, input);
    PagingBackIsComplete(collection, input, |collection|);
    VisibleMeans(n, input);
    hide Found, WalkBack, Indexed, Visible;
  }

  /** And one that follows the `after` cursor sees exactly what is newer, each once and in order. */
  lemma NothingNewIsMissed(collection: seq<Notification>, input: Input, n: Notification)
    requires Indexed(collection) && input.after.Some? && input.limit >= 1
    ensures n in WalkForward(collection, input, |collection|) <==>
              && n in collection && n.id > input.after.value && n.store == input.store && (input.unreadOnly ==> !n.read)
              && (n.user == None || (n.user == Some(input.user) && input.user != ""))
    ensures Indexed(WalkForward(collection, input, |collection|))
  {
    FoundIsVisible(collection, input);
    PagingForwardIsComplete(collection, input, |collection|);
    VisibleMeans(n, input);
    hide Found, WalkForward, Indexed, Visible;
  }

  lemma VisibleMeans(n: Notification, input: Input)
    ensures Visible(n, input) <==>
              && n.store == input.store && (input.unreadOnly ==> !n.read)
              && (n.user == None || (n.user == Some(input.user) && input.user != ""))
  {
  }
}
