/**
 The session store as one caller sees it: creating under the per-owner cap, closing, pruning
 closed sessions and listing. A HashMap hands out its entries in any order; that order is a
 parameter of every operation that iterates.
 */
module SessionStore {
  import opened Sorting
  import opened Text
  import opened Wrappers

  type Time = int

  /** The part of a session handle the store reads. */
  datatype Session = Session(
    id: string,
    owner: string,
    workspaceId: string,
    title: string,
    active: bool,
    closedAt: Option<Time>,
    lastActivityAt: Time,
    recentOrder: nat)

  datatype ListItem = ListItem(id: string, workspaceId: string, title: string, active: bool, lastActivityAt: Time)

  type Entry = (nat, ListItem)

  /** What is kept of a session that may be restored later. */
  datatype SessionSnapshot = SessionSnapshot(id: string, workspaceId: string, title: string, active: bool)

  datatype StoreError = NotFound | Forbidden | Closed | SessionCapReached

  // ----- listing

  function EntryOf(s: Session): Entry {
    (s.recentOrder, ListItem(s.id, s.workspaceId, s.title, s.active, s.lastActivityAt))
  }

  /** compare_session_entries: most recent first, then by activity, then by id. */
  predicate EntryBefore(left: Entry, right: Entry) {
    || left.0 > right.0
    || (left.0 == right.0 && left.1.lastActivityAt > right.1.lastActivityAt)
    || (left.0 == right.0 && left.1.lastActivityAt == right.1.lastActivityAt && Less(left.1.id, right.1.id))
  }

  function Items(entries: seq<Entry>): seq<ListItem> {
    seq(|entries|, i requires 0 <= i < |entries| => entries[i].1)
  }

  function Entries(handles: seq<Session>): seq<Entry> {
    seq(|handles|, i requires 0 <= i < |handles| => EntryOf(handles[i]))
  }

  function OwnedBy(owner: string): Session -> bool {
    (s: Session) => s.owner == owner
  }

  function InWorkspace(workspaceId: string): Session -> bool {
    (s: Session) => s.workspaceId == workspaceId
  }

  function ItemInWorkspace(workspaceId: string): ListItem -> bool {
    (item: ListItem) => item.workspaceId == workspaceId
  }

  function EntryInWorkspace(workspaceId: string): Entry -> bool {
    (e: Entry) => e.1.workspaceId == workspaceId
  }

  function OwnedList(handles: seq<Session>, owner: string): seq<ListItem> {
    Items(Sort(EntryBefore, Entries(Filter(OwnedBy(owner), handles))))
  }

  function WorkspaceList(handles: seq<Session>, owner: string, workspaceId: string): seq<ListItem> {
    Items(Sort(EntryBefore, Entries(Filter(InWorkspace(workspaceId), Filter(OwnedBy(owner), handles)))))
  }

  ghost predicate DistinctIds(handles: seq<Session>) {
    forall i, j :: 0 <= i < j < |handles| ==> handles[i].id != handles[j].id
  }

  lemma EntryBeforeIsWeakOrder()
    ensures WeakOrder(EntryBefore)
  {
    forall x: Entry, y: Entry, z: Entry
      ensures EntryBefore(x, y) ==> !EntryBefore(y, x)
      ensures EntryBefore(x, z) ==> EntryBefore(x, y) || EntryBefore(y, z)
    {
      LessIsStrictOrder(x.1.id, y.1.id, x.1.id);
      LessIsStrictOrder(x.1.id, y.1.id, z.1.id);
      LessIsStrictOrder(x.1.id, z.1.id, y.1.id);
      LessIsStrictOrder(y.1.id, x.1.id, z.1.id);
    }
  }

  /** On distinct ids the comparator never calls two entries equal. */
  lemma EntriesSeparated(handles: seq<Session>)
    requires DistinctIds(handles)
    ensures Separated(EntryBefore, Entries(handles))
  {
    var es := Entries(handles);
    forall i, j | 0 <= i < j < |es| ensures EntryBefore(es[i], es[j]) || EntryBefore(es[j], es[i]) {
      LessIsStrictOrder(es[i].1.id, es[j].1.id, "");
    }
  }

  lemma {:induction false} EntriesOfSame(handles: seq<Session>, e: Entry)
    ensures multiset(Entries(handles))[e] == |Filter((s: Session) => EntryOf(s) == e, handles)|
  {
    if handles != [] {
      EntriesOfSame(handles[1..], e);
      assert Entries(handles) == [EntryOf(handles[0])] + Entries(handles[1..]);
    }
  }

  lemma EntriesOfPermutation(xs: seq<Session>, ys: seq<Session>)
    requires multiset(xs) == multiset(ys)
    ensures multiset(Entries(xs)) == multiset(Entries(ys))
  {
    forall e: Entry ensures multiset(Entries(xs))[e] == multiset(Entries(ys))[e] {
      var isE := (s: Session) => EntryOf(s) == e;
      EntriesOfSame(xs, e);
      EntriesOfSame(ys, e);
      FilterOfSame(isE, xs, ys);
      assert |Filter(isE, xs)| == |multiset(Filter(isE, xs))| == |Filter(isE, ys)|;
    }
  }

  lemma FilterKeepsDistinct(keep: Session -> bool, handles: seq<Session>)
    requires DistinctIds(handles)
    ensures DistinctIds(Filter(keep, handles))
  {
    FilterKeepsSeparated((x: Session, y: Session) => x.id != y.id, keep, handles);
  }

  /** The list depends only on which sessions there are, not on the order the map hands them out. */
  lemma ListingIgnoresIterationOrder(xs: seq<Session>, ys: seq<Session>, owner: string)
    requires DistinctIds(xs) && multiset(xs) == multiset(ys)
    ensures OwnedList(xs, owner) == OwnedList(ys, owner)
  {
    var f, g := Filter(OwnedBy(owner), xs), Filter(OwnedBy(owner), ys);
    FilterOfSame(OwnedBy(owner), xs, ys);
    FilterKeepsDistinct(OwnedBy(owner), xs);
    EntriesSeparated(f);
    EntriesOfPermutation(f, g);
    EntryBeforeIsWeakOrder();
    SortIgnoresOrder(EntryBefore, Entries(f), Entries(g));
  }

  lemma {:induction false} EntriesOfFilter(handles: seq<Session>, workspaceId: string)
    ensures Entries(Filter(InWorkspace(workspaceId), handles)) == Filter(EntryInWorkspace(workspaceId), Entries(handles))
  {
    if handles != [] {
      EntriesOfFilter(handles[1..], workspaceId);
      assert Entries(handles)[1..] == Entries(handles[1..]);
    }
  }

  lemma {:induction false} ItemsOfFilter(entries: seq<Entry>, workspaceId: string)
    ensures Items(Filter(EntryInWorkspace(workspaceId), entries)) == Filter(ItemInWorkspace(workspaceId), Items(entries))
  {
    if entries != [] {
      ItemsOfFilter(entries[1..], workspaceId);
      assert Items(entries)[1..] == Items(entries[1..]);
    }
  }

  /** Listing a workspace is listing the owner's sessions and keeping those of the workspace, in place. */
  lemma WorkspaceListIsFilteredOwnedList(handles: seq<Session>, owner: string, workspaceId: string)
    requires DistinctIds(handles)
    ensures WorkspaceList(handles, owner, workspaceId) == Filter(ItemInWorkspace(workspaceId), OwnedList(handles, owner))
  {
    var owned := Filter(OwnedBy(owner), handles);
    FilterKeepsDistinct(OwnedBy(owner), handles);
    EntriesSeparated(owned);
    EntryBeforeIsWeakOrder();
    EntriesOfFilter(owned, workspaceId);
    SortCommutesWithFilter(EntryBefore, EntryInWorkspace(workspaceId), Entries(owned));
    ItemsOfFilter(Sort(EntryBefore, Entries(owned)), workspaceId);
  }

  lemma {:induction false} EntryListedIff(handles: seq<Session>, e: Entry)
    ensures e in Entries(handles) <==> exists s :: s in handles && e == EntryOf(s)
  {
    if e in Entries(handles) {
      var i :| 0 <= i < |handles| && Entries(handles)[i] == e;
      assert handles[i] in handles && e == EntryOf(handles[i]);
    }
    if s :| s in handles && e == EntryOf(s) {
      var i :| 0 <= i < |handles| && handles[i] == s;
      assert Entries(handles)[i] == e;
    }
  }

  /** The item tells of this session what a list tells. */
  predicate Shows(item: ListItem, s: Session) {
    && item.id == s.id && item.workspaceId == s.workspaceId && item.title == s.title
    && item.active == s.active && item.lastActivityAt == s.lastActivityAt
  }

  /** Used more recently; among equals active more recently; among those still equal first by id. */
  predicate ComesFirst(s: Session, t: Session) {
    || s.recentOrder > t.recentOrder
    || (s.recentOrder == t.recentOrder && s.lastActivityAt > t.lastActivityAt)
    || (s.recentOrder == t.recentOrder && s.lastActivityAt == t.lastActivityAt && Less(s.id, t.id))
  }

  ghost predicate ShowsSome(item: ListItem, chosen: set<Session>) {
    exists s :: s in chosen && Shows(item, s)
  }

  ghost predicate ShownIn(s: Session, items: seq<ListItem>) {
    exists item :: item in items && Shows(item, s)
  }

  ghost predicate PairInOrder(x: ListItem, y: ListItem, chosen: set<Session>) {
    forall s, t :: s in chosen && t in chosen && Shows(x, s) && Shows(y, t) ==> ComesFirst(s, t)
  }

  /** These items show exactly these sessions, each once, in order. */
  ghost predicate ListsInOrder(items: seq<ListItem>, chosen: set<Session>) {
    && (forall item :: item in items ==> ShowsSome(item, chosen))
    && (forall s :: s in chosen ==> ShownIn(s, items))
    && (forall i, j :: 0 <= i < j < |items| ==> items[i].id != items[j].id)
    && (forall i, j :: 0 <= i < j < |items| ==> PairInOrder(items[i], items[j], chosen))
  }

  lemma EntryShows(handles: seq<Session>, e: Entry) returns (s: Session)
    requires e in Sort(EntryBefore, Entries(handles))
    ensures s in handles && e == EntryOf(s) && Shows(e.1, s)
  {
    assert e in multiset(Entries(handles));
    EntryListedIff(handles, e);
    s :| s in handles && e == EntryOf(s);
  }

  lemma SameIdSameSession(handles: seq<Session>, s: Session, t: Session)
    requires DistinctIds(handles) && s in handles && t in handles && s.id == t.id
    ensures s == t
  {
  }

  lemma SortedEntriesInOrder(handles: seq<Session>, i: nat, j: nat)
    requires DistinctIds(handles) && i < j < |Sort(EntryBefore, Entries(handles))|
    ensures var es := Sort(EntryBefore, Entries(handles)); EntryBefore(es[i], es[j])
  {
    EntryBeforeIsWeakOrder();
    SortIsSorted(EntryBefore, Entries(handles));
    EntriesSeparated(handles);
    SeparatedPermutation(EntryBefore, Entries(handles), Sort(EntryBefore, Entries(handles)));
  }

  lemma EntriesInOrder(handles: seq<Session>, i: nat, j: nat)
    requires DistinctIds(handles) && i < j < |Sort(EntryBefore, Entries(handles))|
    ensures var es := Sort(EntryBefore, Entries(handles)); PairInOrder(es[i].1, es[j].1, set s | s in handles)
  {
    var es := Sort(EntryBefore, Entries(handles));
    SortedEntriesInOrder(handles, i, j);
    var s' := EntryShows(handles, es[i]);
    var t' := EntryShows(handles, es[j]);
    forall s, t | s in handles && t in handles && Shows(es[i].1, s) && Shows(es[j].1, t) ensures ComesFirst(s, t) {
      SameIdSameSession(handles, s, s');
      SameIdSameSession(handles, t, t');
    }
  }

  lemma SessionIsShown(handles: seq<Session>, s: Session)
    requires s in handles
    ensures ShownIn(s, Items(Sort(EntryBefore, Entries(handles))))
  {
    var es := Sort(EntryBefore, Entries(handles));
    EntryListedIff(handles, EntryOf(s));
    assert EntryOf(s) in multiset(es);
    var i :| 0 <= i < |es| && es[i] == EntryOf(s);
    assert Items(es)[i] == EntryOf(s).1 && Shows(Items(es)[i], s);
  }

  lemma ListedIdsDiffer(handles: seq<Session>, i: nat, j: nat)
    requires DistinctIds(handles) && i < j < |Sort(EntryBefore, Entries(handles))|
    ensures Sort(EntryBefore, Entries(handles))[i].1.id != Sort(EntryBefore, Entries(handles))[j].1.id
  {
    var es := Sort(EntryBefore, Entries(handles));
    SortedEntriesInOrder(handles, i, j);
    var s := EntryShows(handles, es[i]);
    var t := EntryShows(handles, es[j]);
    if s.id == t.id {
      SameIdSameSession(handles, s, t);
      LessIsStrictOrder(s.id, s.id, s.id);
    }
  }

  lemma SortedItemsInOrder(handles: seq<Session>)
    requires DistinctIds(handles)
    ensures ListsInOrder(Items(Sort(EntryBefore, Entries(handles))), set s | s in handles)
  {
    var es := Sort(EntryBefore, Entries(handles));
    var items, chosen := Items(es), set s | s in handles;
    forall item | item in items ensures ShowsSome(item, chosen) {
      var i :| 0 <= i < |items| && items[i] == item;
      var s := EntryShows(handles, es[i]);
    }
    forall s | s in chosen ensures ShownIn(s, items) {
      SessionIsShown(handles, s);
    }
    forall i, j | 0 <= i < j < |items|
      ensures items[i].id != items[j].id && PairInOrder(items[i], items[j], chosen)
    {
      ListedIdsDiffer(handles, i, j);
      EntriesInOrder(handles, i, j);
    }
  }

  lemma {:induction false} FilteredIff(handles: seq<Session>, keep: Session -> bool, s: Session)
    ensures s in Filter(keep, handles) <==> s in handles && keep(s)
  {
    if handles != [] {
      FilteredIff(handles[1..], keep, s);
      assert handles == [handles[0]] + handles[1..];
    }
  }

  /** The list shows exactly the owner's sessions, each once, the most recently used first. */
  lemma OwnedListIsNewestFirst(handles: seq<Session>, owner: string)
    requires DistinctIds(handles)
    ensures ListsInOrder(OwnedList(handles, owner), set s | s in handles && s.owner == owner)
  {
    var owned := Filter(OwnedBy(owner), handles);
    FilterKeepsDistinct(OwnedBy(owner), handles);
    SortedItemsInOrder(owned);
    forall s ensures s in owned <==> s in handles && s.owner == owner {
      FilteredIff(handles, OwnedBy(owner), s);
    }
    assert (set s | s in owned) == set s | s in handles && s.owner == owner;
  }

  /** The same for the owner's sessions in one workspace. */
  lemma WorkspaceListIsNewestFirst(handles: seq<Session>, owner: string, workspaceId: string)
    requires DistinctIds(handles)
    ensures ListsInOrder(WorkspaceList(handles, owner, workspaceId),
                         set s | s in handles && s.owner == owner && s.workspaceId == workspaceId)
  {
    var owned := Filter(OwnedBy(owner), handles);
    var found := Filter(InWorkspace(workspaceId), owned);
    FilterKeepsDistinct(OwnedBy(owner), handles);
    FilterKeepsDistinct(InWorkspace(workspaceId), owned);
    SortedItemsInOrder(found);
    forall s ensures s in found <==> s in handles && s.owner == owner && s.workspaceId == workspaceId {
      FilteredIff(handles, OwnedBy(owner), s);
      FilteredIff(owned, InWorkspace(workspaceId), s);
    }
    assert (set s | s in found) == set s | s in handles && s.owner == owner && s.workspaceId == workspaceId;
  }

  // ----- choosing what to prune

  /** `stale` is what is left after keeping `limit` most recently closed sessions; ties are free. */
  ghost predicate Prunes(closed: map<string, Time>, limit: nat, stale: set<string>) {
    && stale <= closed.Keys
    && |closed.Keys - stale| == (if |closed| <= limit then |closed| else limit)
    && (forall r, k :: r in stale && k in closed && k !in stale ==> closed[r] <= closed[k])
  }

  predicate ClosedLater(a: (string, Time), b: (string, Time)) {
    a.1 > b.1
  }

  ghost predicate DistinctKeys(entries: seq<(string, Time)>) {
    forall i, j :: 0 <= i < j < |entries| ==> entries[i].0 != entries[j].0
  }

  function IdsOf(entries: seq<(string, Time)>): set<string> {
    set e | e in entries :: e.0
  }

  lemma {:induction false} IdsCount(entries: seq<(string, Time)>)
    requires DistinctKeys(entries)
    ensures |IdsOf(entries)| == |entries|
  {
    if entries != [] {
      var init, last := entries[..|entries| - 1], entries[|entries| - 1];
      IdsCount(init);
      assert entries == init + [last];
      assert IdsOf(entries) == IdsOf(init) + {last.0};
      assert last.0 !in IdsOf(init);
    }
  }

  /** The list of closed sessions a prune collected says the same as a map. */
  ghost predicate Lists(entries: seq<(string, Time)>, m: map<string, Time>) {
    && DistinctKeys(entries)
    && m.Keys == IdsOf(entries)
    && (forall e :: e in entries ==> e.0 in m && m[e.0] == e.1)
  }

  /** Sorting by closing time and skipping the first `limit` keeps the most recently closed. */
  lemma SkippedArePruned(closed: seq<(string, Time)>, sorted: seq<(string, Time)>, m: map<string, Time>, limit: nat)
    requires Lists(closed, m) && limit <= |closed|
    requires multiset(sorted) == multiset(closed) && |sorted| == |closed| && Sorted(ClosedLater, sorted)
    ensures Prunes(m, limit, IdsOf(sorted[limit..]))
  {
    SkippedCount(closed, sorted, m, limit);
    SameEntries(closed, sorted);
    var head, tail := sorted[..limit], sorted[limit..];
    forall r, k | r in IdsOf(tail) && k in m && k !in IdsOf(tail) ensures m[r] <= m[k] {
      var t :| t in tail && t.0 == r;
      assert (k, m[k]) in sorted by {
        var e :| e in closed && e.0 == k;
      }
      KeptClosedLater(sorted, limit, (k, m[k]), t);
    }
  }

  lemma KeptClosedLater(sorted: seq<(string, Time)>, limit: nat, kept: (string, Time), stale: (string, Time))
    requires Sorted(ClosedLater, sorted) && limit <= |sorted|
    requires kept in sorted && kept !in sorted[limit..] && stale in sorted[limit..]
    ensures stale.1 <= kept.1 && stale in sorted
  {
    var i :| 0 <= i < |sorted| && sorted[i] == kept;
    var j :| 0 <= j < |sorted| - limit && sorted[limit..][j] == stale;
    assert sorted[limit + j] == stale;
  }

  lemma SkippedCount(closed: seq<(string, Time)>, sorted: seq<(string, Time)>, m: map<string, Time>, limit: nat)
    requires Lists(closed, m) && limit <= |closed|
    requires multiset(sorted) == multiset(closed) && |sorted| == |closed|
    ensures IdsOf(sorted[limit..]) <= m.Keys && |m| == |closed|
    ensures |m.Keys - IdsOf(sorted[limit..])| == limit
  {
    KeysStayDistinct(closed, sorted);
    SameEntries(closed, sorted);
    IdsSplit(sorted, limit);
    IdsCount(sorted[..limit]);
    IdsCount(closed);
    assert |m| == |m.Keys|;
  }

  lemma IdsSplit(sorted: seq<(string, Time)>, limit: nat)
    requires DistinctKeys(sorted) && limit <= |sorted|
    ensures IdsOf(sorted[limit..]) <= IdsOf(sorted)
    ensures IdsOf(sorted) - IdsOf(sorted[limit..]) == IdsOf(sorted[..limit])
  {
    var head, tail := sorted[..limit], sorted[limit..];
    forall e, f | e in head && f in tail ensures e.0 != f.0 {
      HeadAndTailDiffer(sorted, limit, e, f);
    }
    forall e ensures e in sorted <==> e in head || e in tail {
      assert sorted == head + tail;
    }
  }

  lemma SameEntries(closed: seq<(string, Time)>, sorted: seq<(string, Time)>)
    requires multiset(sorted) == multiset(closed)
    ensures forall e :: e in sorted <==> e in closed
    ensures IdsOf(sorted) == IdsOf(closed)
  {
    forall e ensures e in sorted <==> e in closed {
      assert e in sorted <==> e in multiset(sorted);
    }
  }

  lemma HeadAndTailDiffer(sorted: seq<(string, Time)>, limit: nat, e: (string, Time), f: (string, Time))
    requires DistinctKeys(sorted) && limit <= |sorted| && e in sorted[..limit] && f in sorted[limit..]
    ensures e.0 != f.0
  {
    var i :| 0 <= i < limit && sorted[..limit][i] == e;
    var j :| 0 <= j < |sorted| - limit && sorted[limit..][j] == f;
    assert sorted[i] == e && sorted[limit + j] == f;
  }

  lemma KeysStayDistinct(closed: seq<(string, Time)>, sorted: seq<(string, Time)>)
    requires DistinctKeys(closed) && multiset(sorted) == multiset(closed)
    ensures DistinctKeys(sorted)
  {
    var differ := (a: (string, Time), b: (string, Time)) => Less(a.0, b.0);
    forall x: (string, Time), y: (string, Time), z: (string, Time)
      ensures differ(x, y) ==> !differ(y, x)
      ensures differ(x, z) ==> differ(x, y) || differ(y, z)
      ensures x.0 != y.0 ==> differ(x, y) || differ(y, x)
      ensures !differ(x, x)
    {
      LessIsStrictOrder(x.0, y.0, x.0);
      LessIsStrictOrder(x.0, y.0, z.0);
      LessIsStrictOrder(x.0, z.0, y.0);
      LessIsStrictOrder(y.0, x.0, z.0);
    }
    assert Separated(differ, closed);
    SeparatedPermutation(differ, closed, sorted);
    forall i, j | 0 <= i < j < |sorted| ensures sorted[i].0 != sorted[j].0 {
      assert differ(sorted[i], sorted[j]) || differ(sorted[j], sorted[i]);
    }
  }

  // ----- the store

  function ClosedTimes(sessions: map<string, Session>): map<string, Time> {
    map id | id in sessions && sessions[id].closedAt.Some? :: sessions[id].closedAt.value
  }

  predicate IsActiveOf(s: Session, owner: string) {
    s.owner == owner && s.active
  }

  function ActiveIds(sessions: map<string, Session>, owner: string): set<string> {
    set id | id in sessions && IsActiveOf(sessions[id], owner)
  }

  /** What a prune that runs alone may leave. */
  ghost predicate Pruned(before: map<string, Session>, after: map<string, Session>, limit: nat) {
    exists stale :: Prunes(ClosedTimes(before), limit, stale) && after == before - stale
  }

  ghost predicate Enumerates(order: seq<string>, sessions: map<string, Session>) {
    && (forall id :: id in order <==> id in sessions)
    && (forall i, j :: 0 <= i < j < |order| ==> order[i] != order[j])
  }

  function Handles(order: seq<string>, sessions: map<string, Session>): seq<Session>
    requires forall id :: id in order ==> id in sessions
  {
    seq(|order|, i requires 0 <= i < |order| => sessions[order[i]])
  }

  /** Every session is filed under its own id. */
  ghost predicate KeyedById(sessions: map<string, Session>) {
    forall id :: id in sessions ==> sessions[id].id == id
  }

  ghost function SessionsOf(sessions: map<string, Session>, owner: string): set<Session> {
    set id | id in sessions && sessions[id].owner == owner :: sessions[id]
  }

  ghost function SessionsIn(sessions: map<string, Session>, owner: string, workspaceId: string): set<Session> {
    set id | id in sessions && sessions[id].owner == owner && sessions[id].workspaceId == workspaceId :: sessions[id]
  }

  lemma HandlesAreSessions(order: seq<string>, sessions: map<string, Session>, s: Session)
    requires Enumerates(order, sessions)
    ensures s in Handles(order, sessions) <==> exists id :: id in sessions && sessions[id] == s
  {
    var handles := Handles(order, sessions);
    if s in handles {
      var i :| 0 <= i < |handles| && handles[i] == s;
      assert order[i] in sessions && sessions[order[i]] == s;
    }
    if id :| id in sessions && sessions[id] == s {
      var i :| 0 <= i < |order| && order[i] == id;
      assert handles[i] == s;
    }
  }

  /** What the owner is shown, in terms of the map. */
  lemma OwnedListShowsOwned(order: seq<string>, sessions: map<string, Session>, owner: string)
    requires Enumerates(order, sessions) && KeyedById(sessions)
    ensures ListsInOrder(OwnedList(Handles(order, sessions), owner), SessionsOf(sessions, owner))
  {
    var handles := Handles(order, sessions);
    assert DistinctIds(handles);
    OwnedListIsNewestFirst(handles, owner);
    forall s ensures s in handles && s.owner == owner <==> s in SessionsOf(sessions, owner) {
      HandlesAreSessions(order, sessions, s);
    }
    assert SessionsOf(sessions, owner) == set s | s in handles && s.owner == owner;
  }

  lemma WorkspaceListShowsFound(order: seq<string>, sessions: map<string, Session>, owner: string, workspaceId: string)
    requires Enumerates(order, sessions) && KeyedById(sessions)
    ensures ListsInOrder(WorkspaceList(Handles(order, sessions), owner, workspaceId), SessionsIn(sessions, owner, workspaceId))
  {
    var handles := Handles(order, sessions);
    assert DistinctIds(handles);
    WorkspaceListIsNewestFirst(handles, owner, workspaceId);
    forall s ensures s in handles && s.owner == owner && s.workspaceId == workspaceId <==> s in SessionsIn(sessions, owner, workspaceId) {
      HandlesAreSessions(order, sessions, s);
    }
    assert SessionsIn(sessions, owner, workspaceId) ==
           set s | s in handles && s.owner == owner && s.workspaceId == workspaceId;
  }

  function Authorized(sessions: map<string, Session>, owner: string, id: string): Result<Session, StoreError> {
    if id !in sessions then Err(NotFound)
    else if sessions[id].owner != owner then Err(Forbidden)
    else Ok(sessions[id])
  }

  /** SessionHandle::restore: a closed session counts as closed at its last activity. */
  function Restored(owner: string, snapshot: SessionSnapshot, lastActivityAt: Time, recentOrder: nat): Session {
    Session(snapshot.id, owner, snapshot.workspaceId, snapshot.title, snapshot.active,
            if snapshot.active then None else Some(lastActivityAt), lastActivityAt, recentOrder)
  }

  /** SessionHandle::close on an active session. */
  function ClosedNow(s: Session, now: Time): Session {
    s.(active := false, closedAt := Some(now))
  }

  class Store {
    var sessions: map<string, Session>
    var recentOrder: nat
    const sessionCap: nat
    const closedSessionLimit: nat := 32

    constructor (sessionCap: nat)
      ensures sessions == map[] && recentOrder == 0 && this.sessionCap == sessionCap
    {
      this.sessionCap := sessionCap;
      sessions, recentOrder := map[], 0;
    }

    method CreateSession(owner: string, workspaceId: string, id: string, now: Time, order: seq<string>)
      returns (r: Result<Session, StoreError>)
      requires Enumerates(order, sessions) && id !in sessions
      modifies this
      ensures if |ActiveIds(old(sessions), owner)| >= sessionCap
              then r == Err(SessionCapReached) && sessions == old(sessions) && recentOrder == old(recentOrder)
              else r == Ok(Session(id, owner, workspaceId, "New chat", true, None, now, old(recentOrder) + 1))
                   && sessions == old(sessions)[id := r.value] && recentOrder == old(recentOrder) + 1
      ensures KeyedById(old(sessions)) ==> KeyedById(sessions)
      ensures r.Ok? ==> |ActiveIds(sessions, owner)| == |ActiveIds(old(sessions), owner)| + 1 <= sessionCap
    {
      var activeSessions := CountActive(owner, order);
      if activeSessions >= sessionCap {
        return Err(SessionCapReached);
      }
      recentOrder := recentOrder + 1;
      var handle := Session(id, owner, workspaceId, "New chat", true, None, now, recentOrder);
      sessions := sessions[id := handle];
      assert ActiveIds(sessions, owner) == ActiveIds(old(sessions), owner) + {id};
      r := Ok(handle);
    }

    method CountActive(owner: string, order: seq<string>) returns (activeSessions: nat)
      requires Enumerates(order, sessions)
      ensures activeSessions == |ActiveIds(sessions, owner)|
    {
      activeSessions := 0;
      ghost var counted: set<string> := {};
      for i := 0 to |order|
        invariant forall id :: id in counted ==> id in order[..i] && IsActiveOf(sessions[id], owner)
        invariant forall k :: 0 <= k < i && IsActiveOf(sessions[order[k]], owner) ==> order[k] in counted
        invariant activeSessions == |counted|
      {
        var handle := sessions[order[i]];
        assert order[..i + 1] == order[..i] + [order[i]];
        if handle.owner == owner && handle.active {
          activeSessions := activeSessions + 1;
          counted := counted + {order[i]};
        }
      }
      assert order[..|order|] == order;
      assert counted == ActiveIds(sessions, owner);
    }

    method CloseSession(owner: string, id: string, now: Time, order: seq<string>) returns (r: Result<Session, StoreError>)
      requires Enumerates(order, sessions)
      modifies this
      ensures recentOrder == old(recentOrder)
      ensures r.Err? ==> sessions == old(sessions)
      ensures r.Ok? ==> Pruned(old(sessions)[id := r.value], sessions, closedSessionLimit)
      ensures r == Err(NotFound) <==> id !in old(sessions)
      ensures r == Err(Forbidden) <==> id in old(sessions) && old(sessions)[id].owner != owner
      ensures r == Err(Closed) <==> id in old(sessions) && old(sessions)[id].owner == owner && !old(sessions)[id].active
      ensures r.Ok? <==> id in old(sessions) && old(sessions)[id].owner == owner && old(sessions)[id].active
      ensures r.Ok? ==> r.value == old(sessions)[id].(active := false, closedAt := Some(now))
      ensures r.Ok? && id in sessions ==> sessions[id] == r.value
      ensures KeyedById(old(sessions)) ==> KeyedById(sessions)
    {
      var found := Authorized(sessions, owner, id);
      if found.Err? {
        return Err(found.error);
      }
      if !found.value.active {
        return Err(Closed);
      }
      var handle := ClosedNow(found.value, now);
      sessions := sessions[id := handle];
      PruneClosedSessions(order);
      r := Ok(handle);
    }

    method PruneClosedSessions(order: seq<string>)
      requires Enumerates(order, sessions)
      modifies this
      ensures Pruned(old(sessions), sessions, closedSessionLimit) && recentOrder == old(recentOrder)
    {
      var closed := CollectClosed(order);
      ghost var times := ClosedTimes(sessions);
      if |closed| <= closedSessionLimit {
        NothingToPrune(closed, sessions, closedSessionLimit);
        return;
      }
      ClosedLaterIsWeakOrder();
      SortIsSorted(ClosedLater, closed);
      var sorted := Sort(ClosedLater, closed);
      SkippedArePruned(closed, sorted, times, closedSessionLimit);
      RemoveAll(sorted[closedSessionLimit..]);
    }

    method CollectClosed(order: seq<string>) returns (closed: seq<(string, Time)>)
      requires Enumerates(order, sessions)
      ensures Lists(closed, ClosedTimes(sessions))
    {
      closed := [];
      ghost var times := ClosedTimes(sessions);
      for i := 0 to |order|
        invariant forall e :: e in closed ==> e.0 in order[..i] && e.0 in times && times[e.0] == e.1
        invariant forall id :: id in order[..i] && id in times ==> (id, times[id]) in closed
        invariant DistinctKeys(closed)
      {
        assert order[..i + 1] == order[..i] + [order[i]];
        match sessions[order[i]].closedAt
        case None =>
        case Some(closedAt) => closed := closed + [(order[i], closedAt)];
      }
      assert order[..|order|] == order;
    }

    method RemoveAll(stale: seq<(string, Time)>)
      modifies this`sessions
      ensures sessions == old(sessions) - IdsOf(stale)
    {
      for i := 0 to |stale|
        invariant sessions == old(sessions) - IdsOf(stale[..i])
      {
        assert stale[..i + 1] == stale[..i] + [stale[i]];
        assert IdsOf(stale[..i + 1]) == IdsOf(stale[..i]) + {stale[i].0};
        sessions := sessions - {stale[i].0};
      }
      assert stale[..|stale|] == stale;
    }

    method DeleteSession(owner: string, id: string) returns (r: Result<(), StoreError>)
      modifies this
      ensures recentOrder == old(recentOrder)
      ensures r == Err(NotFound) <==> id !in old(sessions)
      ensures r == Err(Forbidden) <==> id in old(sessions) && old(sessions)[id].owner != owner
      ensures r == Ok(()) <==> id in old(sessions) && old(sessions)[id].owner == owner
      ensures r.Err? ==> (r == Err(NotFound) || r == Err(Forbidden)) && sessions == old(sessions)
      ensures r.Ok? ==> sessions == old(sessions) - {id}
      ensures KeyedById(old(sessions)) ==> KeyedById(sessions)
    {
      var found := Authorized(sessions, owner, id);
      if found.Err? {
        return Err(found.error);
      }
      sessions := sessions - {id};
      r := Ok(());
    }

    /** A session that is present stays as it is, and only its owner is told of it; an order is claimed anyway. */
    method RestoreSession(owner: string, snapshot: SessionSnapshot, lastActivityAt: Time) returns (r: Result<Session, StoreError>)
      modifies this
      ensures recentOrder == old(recentOrder) + 1
      ensures snapshot.id in old(sessions) ==> sessions == old(sessions)
      ensures snapshot.id !in old(sessions) ==>
                && sessions.Keys == old(sessions).Keys + {snapshot.id}
                && (forall id :: id in old(sessions) ==> sessions[id] == old(sessions)[id])
                && (var s := sessions[snapshot.id];
                    && s.id == snapshot.id && s.owner == owner && s.workspaceId == snapshot.workspaceId
                    && s.title == snapshot.title && s.active == snapshot.active && s.lastActivityAt == lastActivityAt
                    && s.closedAt == (if snapshot.active then None else Some(lastActivityAt)) && s.recentOrder == recentOrder)
      ensures r == Err(Forbidden) <==> snapshot.id in old(sessions) && old(sessions)[snapshot.id].owner != owner
      ensures r == Err(Forbidden) || r == Ok(sessions[snapshot.id])
      ensures KeyedById(old(sessions)) ==> KeyedById(sessions)
    {
      recentOrder := recentOrder + 1;
      if snapshot.id !in sessions {
        sessions := sessions[snapshot.id := Restored(owner, snapshot, lastActivityAt, recentOrder)];
      }
      var handle := sessions[snapshot.id];
      if handle.owner != owner {
        return Err(Forbidden);
      }
      r := Ok(handle);
    }

    method ListOwnedSessions(owner: string, order: seq<string>) returns (items: seq<ListItem>)
      requires Enumerates(order, sessions)
      ensures items == OwnedList(Handles(order, sessions), owner)
      ensures KeyedById(sessions) ==> ListsInOrder(items, SessionsOf(sessions, owner))
    {
      var handles := Handles(order, sessions);
      var owned: seq<Entry> := [];
      for i := 0 to |handles|
        invariant owned == Entries(Filter(OwnedBy(owner), handles[..i]))
      {
        assert handles[..i + 1] == handles[..i] + [handles[i]];
        FilterAppend(OwnedBy(owner), handles[..i], handles[i]);
        if handles[i].owner == owner {
          owned := owned + [EntryOf(handles[i])];
        }
      }
      assert handles[..|handles|] == handles;
      items := Items(Sort(EntryBefore, owned));
      if KeyedById(sessions) {
        OwnedListShowsOwned(order, sessions, owner);
      }
    }

    method ListWorkspaceSessions(owner: string, workspaceId: string, order: seq<string>) returns (items: seq<ListItem>)
      requires Enumerates(order, sessions)
      ensures items == WorkspaceList(Handles(order, sessions), owner, workspaceId)
      ensures KeyedById(sessions) ==> ListsInOrder(items, SessionsIn(sessions, owner, workspaceId))
    {
      var handles := Handles(order, sessions);
      var found: seq<Entry> := [];
      for i := 0 to |handles|
        invariant found == Entries(Filter(InWorkspace(workspaceId), Filter(OwnedBy(owner), handles[..i])))
      {
        assert handles[..i + 1] == handles[..i] + [handles[i]];
        FilterAppend(OwnedBy(owner), handles[..i], handles[i]);
        FilterAppend(InWorkspace(workspaceId), Filter(OwnedBy(owner), handles[..i]), handles[i]);
        ghost var owned := Filter(OwnedBy(owner), handles[..i]);
        assert owned + [] == owned && Filter(InWorkspace(workspaceId), owned) + [] == Filter(InWorkspace(workspaceId), owned);
        if handles[i].owner == owner && handles[i].workspaceId == workspaceId {
          found := found + [EntryOf(handles[i])];
        }
      }
      assert handles[..|handles|] == handles;
      items := Items(Sort(EntryBefore, found));
      if KeyedById(sessions) {
        WorkspaceListShowsFound(order, sessions, owner, workspaceId);
      }
    }
  }

  lemma ClosedLaterIsWeakOrder()
    ensures WeakOrder(ClosedLater)
  {
  }

  lemma NothingToPrune(closed: seq<(string, Time)>, sessions: map<string, Session>, limit: nat)
    requires Lists(closed, ClosedTimes(sessions)) && |closed| <= limit
    ensures Pruned(sessions, sessions, limit)
  {
    var times := ClosedTimes(sessions);
    IdsCount(closed);
    assert times.Keys - {} == times.Keys && |times| == |times.Keys|;
    assert Prunes(times, limit, {}) && sessions == sessions - {};
  }

  lemma ClosedTimesAfter(before: map<string, Session>, stale: set<string>)
    ensures ClosedTimes(before - stale) == ClosedTimes(before) - stale
    ensures |ClosedTimes(before - stale)| == |ClosedTimes(before).Keys - stale|
  {
    assert ClosedTimes(before - stale) == ClosedTimes(before) - stale;
    assert (ClosedTimes(before) - stale).Keys == ClosedTimes(before).Keys - stale;
    assert |ClosedTimes(before - stale)| == |ClosedTimes(before - stale).Keys|;
  }

  ghost function ClosedIds(sessions: map<string, Session>): set<string> {
    set id | id in sessions && sessions[id].closedAt.Some?
  }

  lemma ClosedTimesAreOfClosed(sessions: map<string, Session>)
    ensures ClosedTimes(sessions).Keys == ClosedIds(sessions) && |ClosedTimes(sessions)| == |ClosedIds(sessions)|
  {
    assert |ClosedTimes(sessions)| == |ClosedTimes(sessions).Keys|;
  }

  /** A prune that runs alone removes no session that was not closed, and keeps a most recently closed selection. */
  lemma PruneKeepsMostRecentlyClosed(before: map<string, Session>, after: map<string, Session>, limit: nat)
    requires Pruned(before, after, limit)
    ensures forall id :: id in after ==> id in before && after[id] == before[id]
    ensures forall id :: id in before && before[id].closedAt.None? ==> id in after
    ensures |ClosedIds(after)| == if |ClosedIds(before)| <= limit then |ClosedIds(before)| else limit
    ensures forall r, k :: r in before && r !in after && k in after && after[k].closedAt.Some? ==>
              before[r].closedAt.Some? && before[r].closedAt.value <= after[k].closedAt.value
  {
    var stale :| Prunes(ClosedTimes(before), limit, stale) && after == before - stale;
    ClosedTimesAfter(before, stale);
    ClosedTimesAreOfClosed(before);
    ClosedTimesAreOfClosed(after);
    forall r, k | r in before && r !in after && k in after && after[k].closedAt.Some?
      ensures before[r].closedAt.Some? && before[r].closedAt.value <= after[k].closedAt.value
    {
      assert r in stale && k in ClosedTimes(before) && k !in stale;
      assert ClosedTimes(before)[r] <= ClosedTimes(before)[k];
    }
  }
}
