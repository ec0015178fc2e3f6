/** The inbox a client keeps from notification deltas. */
module Inbox {
  import opened Wrappers
  import SortedKeys

  /** `notifiedAt` as its instant and its text; `read` says whether `readAt` is set. */
  datatype Notification = Notification(
    id: string, userId: string, instant: int, notifiedAt: string, read: bool, data: int)

  datatype Delta = Changed(notification: Option<Notification>) | Deleted(id: string) | DeletedAll(userId: string)

  datatype Options = Options(userId: Option<string>, unreadOnly: bool)

  predicate Matches(n: Notification, options: Options) {
    && (options.userId.Some? ==> n.userId == options.userId.value)
    && !(options.unreadOnly && n.read)
  }

  /** How `localeCompare` orders two texts; equal only when they are the same text. */
  type Order = (string, string) -> bool

  ghost predicate IsOrder(le: Order) {
    && (forall s, t :: le(s, t) || le(t, s))
    && (forall s, t :: le(s, t) && le(t, s) ==> s == t)
    && (forall s, t, u :: le(s, t) && le(t, u) ==> le(s, u))
  }

  /** The order of code units is one. */
  lemma CodeUnitsOrder()
    ensures IsOrder(SortedKeys.Le)
  {
    forall s, t ensures SortedKeys.Le(s, t) || SortedKeys.Le(t, s)
                ensures SortedKeys.Le(s, t) && SortedKeys.Le(t, s) ==> s == t {
      SortedKeys.LeTotal(s, t);
    }
    forall s, t, u ensures SortedKeys.Le(s, t) && SortedKeys.Le(t, u) ==> SortedKeys.Le(s, u) {
      if SortedKeys.Le(s, t) && SortedKeys.Le(t, u) {
        SortedKeys.LeTransitive(s, t, u);
      }
    }
  }

  /** `compareInboxNotifications(a, b) <= 0`: newest first, then by id. */
  predicate NotAfter(le: Order, a: Notification, b: Notification) {
    if a.instant != b.instant then a.instant > b.instant
    else if a.notifiedAt != b.notifiedAt then le(b.notifiedAt, a.notifiedAt)
    else le(a.id, b.id)
  }

  function Select(list: seq<Notification>, options: Options): seq<Notification> {
    if list == [] then []
    else if Matches(list[0], options) then [list[0]] + Select(list[1..], options)
    else Select(list[1..], options)
  }

  function InsertSorted(le: Order, n: Notification, list: seq<Notification>): seq<Notification> {
    if list == [] || NotAfter(le, n, list[0]) then [n] + list else [list[0]] + InsertSorted(le, n, list[1..])
  }

  function Sort(le: Order, list: seq<Notification>): seq<Notification> {
    if list == [] then [] else InsertSorted(le, list[0], Sort(le, list[1..]))
  }

  /** `sortInboxNotifications` without a limit. */
  function Materialize(le: Order, list: seq<Notification>, options: Options): seq<Notification> {
    Sort(le, Select(list, options))
  }

  function WithoutUser(list: seq<Notification>, userId: string): seq<Notification> {
    if list == [] then []
    else if list[0].userId == userId then WithoutUser(list[1..], userId)
    else [list[0]] + WithoutUser(list[1..], userId)
  }

  function WithoutId(list: seq<Notification>, id: string): seq<Notification> {
    if list == [] then []
    else if list[0].id == id then WithoutId(list[1..], id)
    else [list[0]] + WithoutId(list[1..], id)
  }

  function Replaced(list: seq<Notification>, n: Notification): seq<Notification> {
    if list == [] then [] else [if list[0].id == n.id then n else list[0]] + Replaced(list[1..], n)
  }

  predicate HasId(list: seq<Notification>, id: string) {
    exists n | n in list :: n.id == id
  }

  /** The list with one delta taken in, neither filtered nor sorted yet. */
  function Taken(list: seq<Notification>, delta: Delta): seq<Notification> {
    match delta
    case DeletedAll(userId) => WithoutUser(list, userId)
    case Deleted(id) => WithoutId(list, id)
    case Changed(None) => list
    case Changed(Some(n)) => if HasId(list, n.id) then Replaced(list, n) else list + [n]
  }

  /** `applyNotificationDeltaToInbox` */
  function ApplyDelta(le: Order, list: seq<Notification>, delta: Delta, options: Options): seq<Notification> {
    Materialize(le, Taken(list, delta), options)
  }

  function FoldDeltas(le: Order, list: seq<Notification>, deltas: seq<Delta>, options: Options): seq<Notification>
    decreases |deltas|
  {
    if deltas == [] then list else FoldDeltas(le, ApplyDelta(le, list, deltas[0], options), deltas[1..], options)
  }

  /** `applyNotificationDeltasToInbox` */
  function ApplyDeltas(le: Order, list: seq<Notification>, deltas: seq<Delta>, options: Options): seq<Notification> {
    FoldDeltas(le, Materialize(le, list, options), deltas, options)
  }

  function TakeAll(list: seq<Notification>, deltas: seq<Delta>): seq<Notification>
    decreases |deltas|
  {
    if deltas == [] then list else TakeAll(Taken(list, deltas[0]), deltas[1..])
  }

  // ---------------------------------------------------------------- lists as sets of notifications

  predicate UniqueIds(list: seq<Notification>) {
    forall i, j | 0 <= i < j < |list| :: list[i].id != list[j].id
  }

  predicate SortedList(le: Order, list: seq<Notification>) {
    forall i, j | 0 <= i < j < |list| :: NotAfter(le, list[i], list[j])
  }

  lemma NotAfterOrder(le: Order, a: Notification, b: Notification, c: Notification)
    requires IsOrder(le)
    ensures NotAfter(le, a, b) || NotAfter(le, b, a)
    ensures NotAfter(le, a, b) && NotAfter(le, b, a) ==> a.id == b.id
    ensures NotAfter(le, a, b) && NotAfter(le, b, c) ==> NotAfter(le, a, c)
  {
    assert le(a.notifiedAt, b.notifiedAt) || le(b.notifiedAt, a.notifiedAt);
    assert le(a.id, b.id) || le(b.id, a.id);
    if NotAfter(le, a, b) && NotAfter(le, b, c) && a.instant == b.instant == c.instant {
      if a.notifiedAt != b.notifiedAt && b.notifiedAt != c.notifiedAt {
        assert le(c.notifiedAt, b.notifiedAt) && le(b.notifiedAt, a.notifiedAt);
      }
    }
  }

  lemma UniqueCons(head: Notification, rest: seq<Notification>)
    ensures UniqueIds([head] + rest) <==> UniqueIds(rest) && forall m :: m in rest ==> m.id != head.id
  {
    var list := [head] + rest;
    assert list[0] == head && list[1..] == rest;
    forall m | m in rest ensures UniqueIds(list) ==> m.id != head.id {
      var i :| 0 <= i < |rest| && rest[i] == m;
      assert list[i + 1] == m;
    }
    forall i, j | 0 <= i < j < |rest| ensures UniqueIds(list) ==> rest[i].id != rest[j].id {
      assert list[i + 1] == rest[i] && list[j + 1] == rest[j];
    }
  }

  lemma SortedCons(le: Order, head: Notification, rest: seq<Notification>)
    ensures SortedList(le, [head] + rest) <==> SortedList(le, rest) && forall m :: m in rest ==> NotAfter(le, head, m)
  {
    var list := [head] + rest;
    assert list[0] == head && list[1..] == rest;
    forall m | m in rest ensures SortedList(le, list) ==> NotAfter(le, head, m) {
      var i :| 0 <= i < |rest| && rest[i] == m;
      assert list[i + 1] == m;
    }
    forall i, j | 0 <= i < j < |rest| ensures SortedList(le, list) ==> NotAfter(le, rest[i], rest[j]) {
      assert list[i + 1] == rest[i] && list[j + 1] == rest[j];
    }
  }

  lemma {:induction false} SelectIs(list: seq<Notification>, options: Options)
    ensures forall n :: n in Select(list, options) <==> n in list && Matches(n, options)
    ensures UniqueIds(list) ==> UniqueIds(Select(list, options))
  {
    if list != [] {
      SelectIs(list[1..], options);
      assert list == [list[0]] + list[1..];
      UniqueCons(list[0], list[1..]);
      UniqueCons(list[0], Select(list[1..], options));
      assert forall n :: n in list <==> n == list[0] || n in list[1..];
    }
  }

  lemma {:induction false} InsertIs(le: Order, n: Notification, list: seq<Notification>)
    requires IsOrder(le)
    ensures forall m :: m in InsertSorted(le, n, list) <==> m == n || m in list
    ensures UniqueIds(list) && (forall m :: m in list ==> m.id != n.id) ==> UniqueIds(InsertSorted(le, n, list))
    ensures SortedList(le, list) ==> SortedList(le, InsertSorted(le, n, list))
  {
    if list != [] {
      var head, rest := list[0], list[1..];
      assert forall m :: m in list <==> m == head || m in rest;
      assert list == [head] + rest;
      UniqueCons(head, rest);
      UniqueCons(n, list);
      UniqueCons(head, InsertSorted(le, n, rest));
      SortedCons(le, head, rest);
      SortedCons(le, n, list);
      SortedCons(le, head, InsertSorted(le, n, rest));
      if NotAfter(le, n, head) {
        forall m | SortedList(le, list) && m in rest ensures NotAfter(le, n, m) {
          NotAfterOrder(le, n, head, m);
        }
      } else {
        NotAfterOrder(le, n, head, head);
        InsertIs(le, n, rest);
      }
    }
  }

  lemma {:induction false} SortIs(le: Order, list: seq<Notification>)
    requires IsOrder(le)
    ensures forall n :: n in Sort(le, list) <==> n in list
    ensures UniqueIds(list) ==> UniqueIds(Sort(le, list))
    ensures SortedList(le, Sort(le, list))
  {
    if list != [] {
      SortIs(le, list[1..]);
      InsertIs(le, list[0], Sort(le, list[1..]));
      assert forall n :: n in list <==> n == list[0] || n in list[1..];
    }
  }

  /** A sorted list is determined by what it holds. */
  lemma {:induction false} SortedUnique(le: Order, s: seq<Notification>, t: seq<Notification>)
    requires IsOrder(le)
    requires SortedList(le, s) && SortedList(le, t) && UniqueIds(s) && UniqueIds(t)
    requires forall n :: n in s <==> n in t
    ensures s == t
    decreases |s|
  {
    if s != [] {
      assert s[0] in t && (t != [] ==> t[0] in s);
      var i :| 0 <= i < |t| && t[i] == s[0];
      var j :| 0 <= j < |s| && s[j] == t[0];
      NotAfterOrder(le, s[0], t[0], t[0]);
      assert s[0] == t[0];
      TailsAgree(s, t);
      SortedUnique(le, s[1..], t[1..]);
      assert s == [s[0]] + s[1..] && t == [t[0]] + t[1..];
    } else {
      SomeMember(t);
    }
  }

  lemma SomeMember(list: seq<Notification>)
    ensures list == [] || exists n :: n in list
  {
    if list != [] {
      assert list[0] in list;
    }
  }

  lemma TailsAgree(s: seq<Notification>, t: seq<Notification>)
    requires s != [] && t != [] && s[0] == t[0] && UniqueIds(s) && UniqueIds(t)
    requires forall n :: n in s <==> n in t
    ensures forall n :: n in s[1..] <==> n in t[1..]
  {
    forall n ensures n in s[1..] <==> n in t[1..] {
      assert n in s <==> n == s[0] || n in s[1..];
      assert n in t <==> n == t[0] || n in t[1..];
      assert s[0] !in s[1..] && t[0] !in t[1..];
    }
  }

  // ---------------------------------------------------------------- a delta as an operation on the set

  /** Which notifications stay when a delta is taken in. */
  predicate Stays(n: Notification, delta: Delta) {
    match delta
    case DeletedAll(userId) => n.userId != userId
    case Deleted(id) => n.id != id
    case Changed(None) => true
    case Changed(Some(changed)) => n.id != changed.id
  }

  lemma {:induction false} WithoutUserIs(list: seq<Notification>, userId: string)
    ensures forall n :: n in WithoutUser(list, userId) <==> n in list && n.userId != userId
    ensures UniqueIds(list) ==> UniqueIds(WithoutUser(list, userId))
  {
    if list != [] {
      WithoutUserIs(list[1..], userId);
      assert forall n :: n in list <==> n == list[0] || n in list[1..];
    }
  }

  lemma {:induction false} WithoutIdIs(list: seq<Notification>, id: string)
    ensures forall n :: n in WithoutId(list, id) <==> n in list && n.id != id
    ensures UniqueIds(list) ==> UniqueIds(WithoutId(list, id))
  {
    if list != [] {
      WithoutIdIs(list[1..], id);
      assert forall n :: n in list <==> n == list[0] || n in list[1..];
    }
  }

  lemma {:induction false} ReplacedIs(list: seq<Notification>, changed: Notification)
    ensures |Replaced(list, changed)| == |list|
    ensures forall i :: 0 <= i < |list| ==>
              Replaced(list, changed)[i] == if list[i].id == changed.id then changed else list[i]
  {
    if list != [] {
      ReplacedIs(list[1..], changed);
    }
  }

  lemma TakenIs(list: seq<Notification>, delta: Delta)
    requires UniqueIds(list)
    ensures UniqueIds(Taken(list, delta))
    ensures forall n :: n in Taken(list, delta) <==>
              (n in list && Stays(n, delta)) || (delta.Changed? && delta.notification == Some(n))
  {
    match delta {
      case DeletedAll(userId) => WithoutUserIs(list, userId);
      case Deleted(id) => WithoutIdIs(list, id);
      case Changed(None) =>
      case Changed(Some(changed)) =>
        if HasId(list, changed.id) {
          ReplacedIs(list, changed);
          ReplacedHolds(list, changed);
        }
    }
  }

  lemma ReplacedHolds(list: seq<Notification>, changed: Notification)
    requires HasId(list, changed.id)
    requires |Replaced(list, changed)| == |list| && forall i :: 0 <= i < |list| ==>
               Replaced(list, changed)[i] == if list[i].id == changed.id then changed else list[i]
    ensures forall n :: n in Replaced(list, changed) <==> (n in list && n.id != changed.id) || n == changed
  {
    var replaced := Replaced(list, changed);
    forall n ensures n in replaced <==> (n in list && n.id != changed.id) || n == changed {
      if n in list && n.id != changed.id {
        var i :| 0 <= i < |list| && list[i] == n;
        assert replaced[i] == n;
      }
      if n == changed {
        var held :| held in list && held.id == changed.id;
        var i :| 0 <= i < |list| && list[i] == held;
        assert replaced[i] == changed;
      }
    }
  }

  lemma MaterializeIs(le: Order, list: seq<Notification>, options: Options)
    requires IsOrder(le)
    requires UniqueIds(list)
    ensures UniqueIds(Materialize(le, list, options)) && SortedList(le, Materialize(le, list, options))
    ensures forall n :: n in Materialize(le, list, options) <==> n in list && Matches(n, options)
  {
    SelectIs(list, options);
    SortIs(le, Select(list, options));
  }

  /** `shown` is what an inbox with these options shows of `all`. */
  ghost predicate Shows(le: Order, shown: seq<Notification>, all: seq<Notification>, options: Options) {
    && UniqueIds(shown) && SortedList(le, shown)
    && forall n :: n in shown <==> n in all && Matches(n, options)
  }

  lemma DeltaKeepsShowing(le: Order, shown: seq<Notification>, all: seq<Notification>, delta: Delta, options: Options)
    requires IsOrder(le)
    requires UniqueIds(all) && Shows(le, shown, all, options)
    ensures UniqueIds(Taken(all, delta)) && Shows(le, ApplyDelta(le, shown, delta, options), Taken(all, delta), options)
  {
    TakenIs(shown, delta);
    TakenIs(all, delta);
    MaterializeIs(le, Taken(shown, delta), options);
  }

  lemma {:induction false} DeltasKeepShowing(
    le: Order, shown: seq<Notification>, all: seq<Notification>, deltas: seq<Delta>, options: Options)
    requires IsOrder(le)
    requires UniqueIds(all) && Shows(le, shown, all, options)
    ensures UniqueIds(TakeAll(all, deltas)) &&
         Shows(le, FoldDeltas(le, shown, deltas, options), TakeAll(all, deltas), options)
    decreases |deltas|
  {
    if deltas != [] {
      DeltaKeepsShowing(le, shown, all, deltas[0], options);
      DeltasKeepShowing(le, ApplyDelta(le, shown, deltas[0], options), Taken(all, deltas[0]), deltas[1..], options);
    }
  }

  /**
    The incremental inbox is the recomputed one: taking deltas into the filtered, sorted list gives the same list as
    taking them into the full list and filtering and sorting once at the end. It is sorted, with unique ids.
   */
  lemma IncrementalIsRecomputed(le: Order, list: seq<Notification>, deltas: seq<Delta>, options: Options)
    requires IsOrder(le)
    requires UniqueIds(list)
    ensures ApplyDeltas(le, list, deltas, options) == Materialize(le, TakeAll(list, deltas), options)
    ensures SortedList(le, ApplyDeltas(le, list, deltas, options)) && UniqueIds(ApplyDeltas(le, list, deltas, options))
  {
    MaterializeIs(le, list, options);
    DeltasKeepShowing(le, Materialize(le, list, options), list, deltas, options);
    MaterializeIs(le, TakeAll(list, deltas), options);
    SortedUnique(le, ApplyDeltas(le, list, deltas, options), Materialize(le, TakeAll(list, deltas), options));
  }

  /** What is shown: with a user only that user's, unread only if asked, nothing else left out, newest first. */
  lemma {:induction false} ShownAre(le: Order, list: seq<Notification>, options: Options)
    requires IsOrder(le) && UniqueIds(list)
    ensures var shown := Materialize(le, list, options);
            && (forall n :: n in shown <==>
                  && n in list
                  && (options.userId == None || options.userId == Some(n.userId))
                  && (options.unreadOnly ==> !n.read))
            && (forall i, j :: 0 <= i < j < |shown| ==>
                  && shown[i].instant >= shown[j].instant
                  && (shown[i].instant == shown[j].instant ==> le(shown[j].notifiedAt, shown[i].notifiedAt))
                  && (shown[i].instant == shown[j].instant && shown[i].notifiedAt == shown[j].notifiedAt ==>
                        le(shown[i].id, shown[j].id)))
  {
    MaterializeIs(le, list, options);
    assert forall s :: le(s, s);
  }

  /** Which notifications a delta removes: the user's, the one named, or the one it replaces. */
  lemma {:induction false} DeltaRemoves(list: seq<Notification>, delta: Delta)
    requires UniqueIds(list)
    ensures forall n :: n in list && n !in Taken(list, delta) ==>
              if delta.DeletedAll? then n.userId == delta.userId
              else if delta.Deleted? then n.id == delta.id
              else delta.notification.Some? && n.id == delta.notification.value.id
    ensures delta.DeletedAll? ==> forall n :: n in Taken(list, delta) ==> n in list && n.userId != delta.userId
    ensures delta.Deleted? ==> forall n :: n in Taken(list, delta) ==> n in list && n.id != delta.id
    ensures delta.Changed? && delta.notification.Some? ==> delta.notification.value in Taken(list, delta)
  {
    TakenIs(list, delta);
  }

  // ---------------------------------------------------------------- limits

  /** `limitInboxNotifications` with a limit that counts: a number, rounded down and not below zero. */
  function Limited(list: seq<Notification>, limit: nat): seq<Notification> {
    if |list| > limit then list[..limit] else list
  }

  /** What the limit cuts off. */
  function Hidden(list: seq<Notification>, limit: nat): seq<Notification> {
    if |list| > limit then list[limit..] else []
  }

  function Staying(list: seq<Notification>, delta: Delta): seq<Notification> {
    if list == [] then []
    else if Stays(list[0], delta) then [list[0]] + Staying(list[1..], delta)
    else Staying(list[1..], delta)
  }

  /** How many of a sorted list rank before a notification. */
  function Ahead(le: Order, list: seq<Notification>, n: Notification): (r: nat)
    ensures r <= |list|
  {
    if list == [] || NotAfter(le, n, list[0]) then 0 else 1 + Ahead(le, list[1..], n)
  }

  /**
    The limited inbox misses nothing by this delta: none of the notifications cut off earlier stays, or the limit is
    filled by shown ones that rank before the first of them.
   */
  predicate NothingMissed(le: Order, all: seq<Notification>, delta: Delta, options: Options, limit: nat) {
    var full := Materialize(le, all, options);
    var cut := Staying(Hidden(full, limit), delta);
    cut == [] || Ahead(le, ApplyDelta(le, Limited(full, limit), delta, options), cut[0]) >= limit
  }

  lemma {:induction false} StayingIs(le: Order, list: seq<Notification>, delta: Delta)
    ensures forall n :: n in Staying(list, delta) <==> n in list && Stays(n, delta)
    ensures SortedList(le, list) ==> SortedList(le, Staying(list, delta))
  {
    if list != [] {
      StayingIs(le, list[1..], delta);
      assert list == [list[0]] + list[1..];
      SortedCons(le, list[0], list[1..]);
      SortedCons(le, list[0], Staying(list[1..], delta));
      assert forall n :: n in list <==> n == list[0] || n in list[1..];
    }
  }

  lemma {:induction false} AheadSplits(le: Order, list: seq<Notification>, n: Notification)
    requires IsOrder(le) && SortedList(le, list)
    ensures forall i :: 0 <= i < |list| ==> (NotAfter(le, n, list[i]) <==> i >= Ahead(le, list, n))
  {
    if list != [] {
      if NotAfter(le, n, list[0]) {
        forall i | 0 <= i < |list| ensures NotAfter(le, n, list[i]) {
          NotAfterOrder(le, n, list[0], list[i]);
        }
      } else {
        AheadSplits(le, list[1..], n);
        assert forall i :: 1 <= i < |list| ==> list[i] == list[1..][i - 1];
      }
    }
  }

  lemma PrefixIs(le: Order, list: seq<Notification>, n: Notification)
    requires IsOrder(le) && SortedList(le, list) && UniqueIds(list)
    ensures var ahead := list[..Ahead(le, list, n)];
            && SortedList(le, ahead) && UniqueIds(ahead)
            && forall m :: m in ahead <==> m in list && !NotAfter(le, n, m)
  {
    AheadSplits(le, list, n);
    var ahead := list[..Ahead(le, list, n)];
    forall m ensures m in ahead <==> m in list && !NotAfter(le, n, m) {
      if m in list && !NotAfter(le, n, m) {
        var i :| 0 <= i < |list| && list[i] == m;
        assert ahead[i] == m;
      }
    }
  }

  /** Merging more into a sorted list leaves what ranks before the first of them, and puts that one next. */
  lemma MergePrefix(
    le: Order, few: seq<Notification>, many: seq<Notification>, cut: seq<Notification>)
    requires IsOrder(le) && SortedList(le, few) && UniqueIds(few) && SortedList(le, many) && UniqueIds(many)
    requires cut != [] && SortedList(le, cut)
    requires forall n :: n in many <==> n in few || n in cut
    ensures var p := Ahead(le, few, cut[0]);
            p <= |few| && p < |many| && many[..p] == few[..p] && many[p] == cut[0]
  {
    var h := cut[0];
    NotAfterOrder(le, h, h, h);
    AheadSplits(le, few, h);
    AheadSplits(le, many, h);
    PrefixIs(le, few, h);
    PrefixIs(le, many, h);
    var p, q := Ahead(le, few, h), Ahead(le, many, h);
    forall n ensures n in few[..p] <==> n in many[..q] {
      if n in cut {
        var i :| 0 <= i < |cut| && cut[i] == n;
        assert NotAfter(le, h, n);
      }
    }
    SortedUnique(le, few[..p], many[..q]);
    assert |few[..p]| == p && |many[..q]| == q;
    assert h in many;
    var j :| 0 <= j < |many| && many[j] == h;
    NotAfterOrder(le, h, many[q], h);
    assert many[q].id == h.id;
  }

  /** The incremental list and the recomputed one, before the limit: they differ by what was cut off and stays. */
  lemma DeltaOnLimited(le: Order, all: seq<Notification>, delta: Delta, options: Options, limit: nat)
    requires IsOrder(le) && UniqueIds(all)
    ensures var full := Materialize(le, all, options);
            var cut := Staying(Hidden(full, limit), delta);
            var few := ApplyDelta(le, Limited(full, limit), delta, options);
            var many := Materialize(le, Taken(all, delta), options);
            && SortedList(le, few) && UniqueIds(few) && SortedList(le, many) && UniqueIds(many) && SortedList(le, cut)
            && (forall n :: n in many <==> n in few || n in cut)
            && (forall n :: n in cut ==> n !in few)
  {
    MaterializeIs(le, all, options);
    var full := Materialize(le, all, options);
    var shown, hidden := Limited(full, limit), Hidden(full, limit);
    assert full == shown + hidden;
    StayingIs(le, hidden, delta);
    TakenIs(shown, delta);
    TakenIs(all, delta);
    MaterializeIs(le, Taken(shown, delta), options);
    MaterializeIs(le, Taken(all, delta), options);
    forall n | n in shown ensures n !in hidden {
      var i :| 0 <= i < |shown| && shown[i] == n;
      assert full[i] == n;
    }
  }

  /**
    The limited inbox after one delta, exactly: taking the delta into the limited list gives the limited recomputed
    list if and only if nothing that was cut off is missed.
   */
  lemma LimitedAgreesIff(le: Order, all: seq<Notification>, delta: Delta, options: Options, limit: nat)
    requires IsOrder(le) && UniqueIds(all)
    ensures Limited(ApplyDelta(le, Limited(Materialize(le, all, options), limit), delta, options), limit)
            == Limited(Materialize(le, Taken(all, delta), options), limit)
       <==> NothingMissed(le, all, delta, options, limit)
  {
    DeltaOnLimited(le, all, delta, options, limit);
    var full := Materialize(le, all, options);
    var cut := Staying(Hidden(full, limit), delta);
    var few := ApplyDelta(le, Limited(full, limit), delta, options);
    var many := Materialize(le, Taken(all, delta), options);
    if cut == [] {
      SortedUnique(le, few, many);
    } else {
      MergePrefix(le, few, many, cut);
      var p := Ahead(le, few, cut[0]);
      if p >= limit {
        assert few[..limit] == few[..p][..limit] == many[..p][..limit] == many[..limit];
        assert Limited(few, limit) == few[..limit] && Limited(many, limit) == many[..limit];
      } else {
        assert cut[0] in cut && Limited(many, limit)[p] == cut[0];
        assert forall n :: n in Limited(few, limit) ==> n in few;
      }
    }
  }

  /** `applyNotificationDeltasToInbox` with a limit, from a list already limited. */
  function FoldLimited(
    le: Order, shown: seq<Notification>, deltas: seq<Delta>, options: Options, limit: nat): seq<Notification>
    decreases |deltas|
  {
    if deltas == [] then shown
    else FoldLimited(le, Limited(ApplyDelta(le, shown, deltas[0], options), limit), deltas[1..], options, limit)
  }

  predicate NeverMissed(le: Order, all: seq<Notification>, deltas: seq<Delta>, options: Options, limit: nat)
    decreases |deltas|
  {
    deltas == []
    || (NothingMissed(le, all, deltas[0], options, limit)
        && NeverMissed(le, Taken(all, deltas[0]), deltas[1..], options, limit))
  }

  /** Over a run of deltas that miss nothing, the limited inbox is the recomputed one, limited. */
  lemma {:induction false} LimitedRunAgrees(
    le: Order, all: seq<Notification>, deltas: seq<Delta>, options: Options, limit: nat)
    requires IsOrder(le) && UniqueIds(all) && NeverMissed(le, all, deltas, options, limit)
    ensures FoldLimited(le, Limited(Materialize(le, all, options), limit), deltas, options, limit)
         == Limited(Materialize(le, TakeAll(all, deltas), options), limit)
    decreases |deltas|
  {
    if deltas != [] {
      LimitedAgreesIff(le, all, deltas[0], options, limit);
      TakenIs(all, deltas[0]);
      LimitedRunAgrees(le, Taken(all, deltas[0]), deltas[1..], options, limit);
    }
  }

  lemma {:induction false} MaterializeNoLonger(le: Order, list: seq<Notification>, options: Options)
    ensures |Materialize(le, list, options)| <= |list|
  {
    SelectNoLonger(list, options);
    SortSameLength(le, Select(list, options));
  }

  lemma {:induction false} SelectNoLonger(list: seq<Notification>, options: Options)
    ensures |Select(list, options)| <= |list|
  {
    if list != [] {
      SelectNoLonger(list[1..], options);
    }
  }

  lemma {:induction false} SortSameLength(le: Order, list: seq<Notification>)
    ensures |Sort(le, list)| == |list|
  {
    if list != [] {
      SortSameLength(le, list[1..]);
      InsertGrows(le, list[0], Sort(le, list[1..]));
    }
  }

  lemma {:induction false} InsertGrows(le: Order, n: Notification, list: seq<Notification>)
    ensures |InsertSorted(le, n, list)| == |list| + 1
  {
    if list != [] {
      InsertGrows(le, n, list[1..]);
    }
  }

  lemma {:induction false} TakenGrowsByOne(list: seq<Notification>, delta: Delta)
    ensures |Taken(list, delta)| <= |list| + 1
  {
    match delta
    case DeletedAll(userId) => WithoutUserNoLonger(list, userId);
    case Deleted(id) => WithoutIdNoLonger(list, id);
    case Changed(None) =>
    case Changed(Some(n)) => ReplacedIs(list, n);
  }

  lemma {:induction false} WithoutUserNoLonger(list: seq<Notification>, userId: string)
    ensures |WithoutUser(list, userId)| <= |list|
  {
    if list != [] {
      WithoutUserNoLonger(list[1..], userId);
    }
  }

  lemma {:induction false} WithoutIdNoLonger(list: seq<Notification>, id: string)
    ensures |WithoutId(list, id)| <= |list|
  {
    if list != [] {
      WithoutIdNoLonger(list[1..], id);
    }
  }

  /** A limit that has room for every notification and every delta is no limit. */
  lemma {:induction false} RoomForAll(
    le: Order, all: seq<Notification>, deltas: seq<Delta>, options: Options, limit: nat)
    requires |all| + |deltas| <= limit
    ensures NeverMissed(le, all, deltas, options, limit)
    decreases |deltas|
  {
    if deltas != [] {
      MaterializeNoLonger(le, all, options);
      TakenGrowsByOne(all, deltas[0]);
      RoomForAll(le, Taken(all, deltas[0]), deltas[1..], options, limit);
    }
  }

  /** With a limit the equality can fail: what was cut off does not come back when a newer notification is deleted. */
  lemma LimitForgets(le: Order)
    ensures var newer := Notification("a", "u", 2, "2", false, 0);
            var older := Notification("b", "u", 1, "1", false, 0);
            var options := Options(None, false);
            && Limited(ApplyDelta(le, Limited(Materialize(le, [newer, older], options), 1), Deleted("a"), options), 1)
               == []
            && Limited(Materialize(le, Taken([newer, older], Deleted("a")), options), 1) == [older]
  {
    var newer := Notification("a", "u", 2, "2", false, 0);
    var older := Notification("b", "u", 1, "1", false, 0);
    var options := Options(None, false);
    assert [newer, older][1..] == [older] && [older][1..] == [] && [newer][1..] == [];
    assert "a" != "b" by {
      assert "a"[0] != "b"[0];
    }
    assert Sort(le, [older]) == [older] && Select([older], options) == [older];
    assert Select([newer, older], options) == [newer, older];
    assert Sort(le, [newer, older]) == [newer, older];
    assert WithoutId([newer, older], "a") == [older] && WithoutId([newer], "a") == [];
  }
}
