/**
 The relay's allocation quota: reservations that a client makes before its allocation exists, live
 allocations, the timers that release reservations, and counters of both, per user and in total.
 */
module Quota {
  import opened Text

  // ---------- Reservation keys ----------

  datatype Address = Nil | Address(network: string, text: string)
  datatype Client = Client(user: string, address: Address)

  function Key(c: Client): string {
    match c.address
    case Nil => c.user + "|<nil>"
    case Address(network, text) => c.user + "|" + network + "|" + text
  }

  /** No '|' in what the address prints. */
  predicate Plain(a: Address) {
    a.Address? ==> '|' !in a.network && '|' !in a.text
  }

  /** The last bar of a string determines what is before and after it. */
  lemma LastBar(x: string, s: string, y: string, t: string)
    requires '|' !in s && '|' !in t && x + "|" + s == y + "|" + t
    ensures x == y && s == t
  {
    var whole := x + "|" + s;
    NoBarAfter(x, s);
    NoBarAfter(y, t);
    assert whole[|x|] == '|' && whole[|y|] == '|';
    assert x == whole[..|x|] && s == whole[|x| + 1..];
    assert y == whole[..|y|] && t == whole[|y| + 1..];
  }

  lemma NoBarAfter(x: string, s: string)
    requires '|' !in s
    ensures forall i :: |x| < i <= |x| + |s| ==> (x + "|" + s)[i] != '|'
  {
  }

  /** One client has no address and the other's name and network make up the first one's name. */
  predicate Confusable(c: Client, d: Client) {
    c.address.Nil? && d.address.Address? && d.address.text == "<nil>" && c.user == d.user + "|" + d.address.network
  }

  /** Exactly when two clients whose addresses print without bars share a reservation key. */
  lemma SharedKey(c: Client, d: Client)
    requires Plain(c.address) && Plain(d.address)
    ensures Key(c) == Key(d) <==> c == d || Confusable(c, d) || Confusable(d, c)
  {
    if c.address.Nil? && d.address.Nil? {
      KeyWithout(c);
      KeyWithout(d);
      if Key(c) == Key(d) { LastBar(c.user, "<nil>", d.user, "<nil>"); }
    } else if c.address.Nil? {
      MixedKey(c, d);
    } else if d.address.Nil? {
      MixedKey(d, c);
    } else if Key(c) == Key(d) {
      LastBar(c.user + "|" + c.address.network, c.address.text, d.user + "|" + d.address.network, d.address.text);
      LastBar(c.user, c.address.network, d.user, d.address.network);
    }
  }

  lemma KeyWithout(c: Client)
    requires c.address.Nil?
    ensures Key(c) == c.user + "|" + "<nil>"
  {
  }

  lemma MixedKey(c: Client, d: Client)
    requires c.address.Nil? && d.address.Address? && Plain(d.address)
    ensures Key(c) == Key(d) <==> Confusable(c, d)
  {
    KeyWithout(c);
    if Key(c) == Key(d) {
      LastBar(c.user, "<nil>", d.user + "|" + d.address.network, d.address.text);
    }
  }

  // ---------- Counters ----------

  function Count(m: map<string, nat>, user: string): nat {
    if user in m then m[user] else 0
  }

  function Increment(m: map<string, nat>, user: string): map<string, nat> {
    m[user := Count(m, user) + 1]
  }

  /** A counter that reaches zero is dropped. */
  function Decrement(m: map<string, nat>, user: string): map<string, nat> {
    if Count(m, user) > 1 then m[user := m[user] - 1] else m - {user}
  }

  ghost function Sum(m: map<string, nat>): nat {
    if m == map[] then 0
    else
      var user :| user in m;
      m[user] + Sum(m - {user})
  }

  lemma {:induction false} SumWithout(m: map<string, nat>, user: string)
    requires user in m
    ensures Sum(m) == m[user] + Sum(m - {user})
    decreases |m|
  {
    var first :| first in m && Sum(m) == m[first] + Sum(m - {first});
    if first != user {
      assert |(m - {first}).Keys| == |m.Keys - {first}| && (m - {first}).Keys == m.Keys - {first};
      SumWithout(m - {first}, user);
      assert (m - {user}).Keys == m.Keys - {user} && |(m - {user}).Keys| == |m.Keys - {user}|;
      SumWithout(m - {user}, first);
      assert m - {first} - {user} == m - {user} - {first};
    }
  }

  lemma SumIncrement(m: map<string, nat>, user: string)
    ensures Sum(Increment(m, user)) == Sum(m) + 1
  {
    SumWithout(Increment(m, user), user);
    assert Increment(m, user) - {user} == m - {user};
    if user in m {
      SumWithout(m, user);
    } else {
      assert m - {user} == m;
    }
  }

  lemma SumDecrement(m: map<string, nat>, user: string)
    ensures Sum(Decrement(m, user)) == if Count(m, user) > 0 then Sum(m) - 1 else Sum(m)
  {
    if user !in m {
      assert m - {user} == m;
    } else {
      SumWithout(m, user);
      if m[user] > 1 {
        SumWithout(Decrement(m, user), user);
        assert Decrement(m, user) - {user} == m - {user};
      }
    }
  }

  // ---------- The tracker ----------

  datatype Tracker = Tracker(
    byUser: map<string, nat>, pending: map<string, string>, pendingByUser: map<string, nat>,
    total: nat, pendingTotal: nat)

  datatype Limits = Limits(perUser: nat, maxTotal: nat)

  predicate Available(q: Tracker, limits: Limits, user: string) {
    q.total + q.pendingTotal < limits.maxTotal && Count(q.byUser, user) + Count(q.pendingByUser, user) < limits.perUser
  }

  function Reserve(q: Tracker, c: Client): Tracker {
    q.(pending := q.pending[Key(c) := c.user],
       pendingByUser := Increment(q.pendingByUser, c.user),
       pendingTotal := q.pendingTotal + 1)
  }

  function ReleasePending(q: Tracker, key: string, user: string): Tracker {
    if key !in q.pending then q
    else
      q.(pending := q.pending - {key},
         pendingByUser := Decrement(q.pendingByUser, user),
         pendingTotal := if q.pendingTotal > 0 then q.pendingTotal - 1 else 0)
  }

  function Create(q: Tracker, c: Client): Tracker {
    var q := ReleasePending(q, Key(c), c.user);
    q.(byUser := Increment(q.byUser, c.user), total := q.total + 1)
  }

  function Delete(q: Tracker, user: string): Tracker {
    q.(byUser := Decrement(q.byUser, user), total := if q.total > 0 then q.total - 1 else 0)
  }

  /** The tracker as the server keeps it, updated in place under its lock. */
  class QuotaTracker {
    var byUser: map<string, nat>
    var pending: map<string, string>
    var pendingByUser: map<string, nat>
    var total: nat
    var pendingTotal: nat
    const limits: Limits

    function State(): Tracker
      reads this
    {
      Tracker(byUser, pending, pendingByUser, total, pendingTotal)
    }

    constructor (limits: Limits)
      ensures State() == Tracker(map[], map[], map[], 0, 0) && this.limits == limits
    {
      byUser, pending, pendingByUser, total, pendingTotal := map[], map[], map[], 0, 0;
      this.limits := limits;
    }

    /** Whether the client may allocate; `armed` says that a new reservation was made, with a timer to release it. */
    method Allow(c: Client) returns (ok: bool, armed: bool)
      modifies this
      ensures ok == (
                || Key(c) in old(pending)
                || (old(total) + old(pendingTotal) < limits.maxTotal
                    && Count(old(byUser), c.user) + Count(old(pendingByUser), c.user) < limits.perUser))
      ensures armed == (ok && Key(c) !in old(pending))
      ensures State() == if armed then Reserve(old(State()), c) else old(State())
    {
      var key := Key(c);
      if key in pending {
        return true, false;
      }
      if total + pendingTotal >= limits.maxTotal
          || Count(byUser, c.user) + Count(pendingByUser, c.user) >= limits.perUser {
        return false, false;
      }
      pending := pending[key := c.user];
      pendingByUser := pendingByUser[c.user := Count(pendingByUser, c.user) + 1];
      pendingTotal := pendingTotal + 1;
      return true, true;
    }

    method Created(c: Client)
      modifies this
      ensures State() == Create(old(State()), c)
    {
      RemovePending(Key(c), c.user);
      byUser := byUser[c.user := Count(byUser, c.user) + 1];
      total := total + 1;
    }

    /** Also what a reservation's timer does when it fires. */
    method RemovePending(key: string, user: string)
      modifies this
      ensures State() == ReleasePending(old(State()), key, user)
    {
      if key !in pending {
        return;
      }
      pending := pending - {key};
      if Count(pendingByUser, user) > 1 {
        pendingByUser := pendingByUser[user := pendingByUser[user] - 1];
      } else {
        pendingByUser := pendingByUser - {user};
      }
      if pendingTotal > 0 {
        pendingTotal := pendingTotal - 1;
      }
    }

    method Deleted(user: string)
      modifies this
      ensures State() == Delete(old(State()), user)
    {
      if Count(byUser, user) > 1 {
        byUser := byUser[user := byUser[user] - 1];
      } else {
        byUser := byUser - {user};
      }
      if total > 0 {
        total := total - 1;
      }
    }
  }

  // ---------- Runs ----------

  datatype Event =
    | Allow(client: Client)
    | Created(client: Client)
    | Deleted(user: string)
    | Expired(client: Client)

  /**
   The tracker with what really happened: the users of the live allocations, the clients whose
   reservation has started a timer, and whose allocations came when no reservation was pending.
   */
  datatype World = World(tracker: Tracker, live: multiset<string>, armed: set<Client>, late: multiset<string>)

  const EMPTY := World(Tracker(map[], map[], map[], 0, 0), multiset{}, {}, multiset{})

  function AllowStep(w: World, limits: Limits, c: Client): World {
    if Key(c) !in w.tracker.pending && Available(w.tracker, limits, c.user)
    then w.(tracker := Reserve(w.tracker, c), armed := w.armed + {c})
    else w
  }

  function CreatedStep(w: World, c: Client): World {
    w.(tracker := Create(w.tracker, c), live := w.live + multiset{c.user},
       late := if Key(c) in w.tracker.pending then w.late else w.late + multiset{c.user})
  }

  function DeletedStep(w: World, user: string): World {
    w.(tracker := Delete(w.tracker, user), live := w.live - multiset{user})
  }

  function ExpiredStep(w: World, c: Client): World {
    w.(tracker := ReleasePending(w.tracker, Key(c), c.user))
  }

  /**
   A timer may fire at any time once its reservation was made, however long ago that was. Deletion
   is reported only for a live allocation.
   */
  function Step(w: World, limits: Limits, e: Event): World {
    match e
    case Allow(c) => AllowStep(w, limits, c)
    case Created(c) => CreatedStep(w, c)
    case Deleted(user) => if user in w.live then DeletedStep(w, user) else w
    case Expired(c) => if c in w.armed then ExpiredStep(w, c) else w
  }

  function Run(limits: Limits, events: seq<Event>): World {
    if events == [] then EMPTY else Step(Run(limits, events[..|events| - 1]), limits, events[|events| - 1])
  }

  predicate From(events: seq<Event>, clients: iset<Client>) {
    forall e :: e in events ==> e.Deleted? || e.client in clients
  }

  /** No two users share a reservation key. */
  ghost predicate NoSharedKeys(clients: iset<Client>) {
    forall c, d :: c in clients && d in clients && Key(c) == Key(d) ==> c.user == d.user
  }

  function KeysOf(pending: map<string, string>, user: string): set<string> {
    set k | k in pending && pending[k] == user
  }

  ghost predicate PendingOk(q: Tracker) {
    && q.pendingTotal == |q.pending| == Sum(q.pendingByUser)
    && forall user :: Count(q.pendingByUser, user) == |KeysOf(q.pending, user)|
  }

  ghost predicate LiveOk(q: Tracker, live: multiset<string>) {
    && q.total == |live| == Sum(q.byUser)
    && forall user :: Count(q.byUser, user) == live[user]
  }

  /** All counters agree with each other, with the reservations and with the live allocations. */
  ghost predicate Conserved(w: World) {
    PendingOk(w.tracker) && LiveOk(w.tracker, w.live)
  }

  /** Every reservation and every timer carries the name of the client that its key stands for. */
  ghost predicate Owned(w: World, clients: iset<Client>) {
    && (forall c :: c in w.armed ==> c in clients)
    && (forall k :: k in w.tracker.pending ==>
          exists c :: c in clients && Key(c) == k && c.user == w.tracker.pending[k])
  }

  /** Neither quota is exceeded by more than the allocations that came without a reservation. */
  ghost predicate Bounded(w: World, limits: Limits) {
    && w.tracker.total + w.tracker.pendingTotal <= limits.maxTotal + |w.late|
    && forall user :: Use(w.tracker, user) <= limits.perUser + w.late[user]
  }

  function Use(q: Tracker, user: string): nat {
    Count(q.byUser, user) + Count(q.pendingByUser, user)
  }

  lemma KeysWith(pending: map<string, string>, key: string, owner: string, user: string)
    requires key !in pending
    ensures |KeysOf(pending[key := owner], user)| == |KeysOf(pending, user)| + if user == owner then 1 else 0
  {
    if user == owner {
      assert KeysOf(pending[key := owner], user) == KeysOf(pending, user) + {key};
    } else {
      assert KeysOf(pending[key := owner], user) == KeysOf(pending, user);
    }
  }

  lemma KeysWithout(pending: map<string, string>, key: string, user: string)
    requires key in pending
    ensures |KeysOf(pending - {key}, user)| == |KeysOf(pending, user)| - if user == pending[key] then 1 else 0
  {
    if user == pending[key] {
      assert KeysOf(pending - {key}, user) == KeysOf(pending, user) - {key};
    } else {
      assert KeysOf(pending - {key}, user) == KeysOf(pending, user);
    }
  }

  lemma ReserveKeeps(q: Tracker, c: Client)
    requires PendingOk(q) && Key(c) !in q.pending
    ensures PendingOk(Reserve(q, c))
  {
    var pending := q.pending[Key(c) := c.user];
    assert pending.Keys == q.pending.Keys + {Key(c)} && |pending| == |pending.Keys| && |q.pending| == |q.pending.Keys|;
    SumIncrement(q.pendingByUser, c.user);
    forall user
      ensures Count(Increment(q.pendingByUser, c.user), user) == |KeysOf(pending, user)|
    {
      KeysWith(q.pending, Key(c), c.user, user);
    }
  }

  lemma ReleaseKeeps(q: Tracker, key: string, user: string)
    requires PendingOk(q) && (key in q.pending ==> q.pending[key] == user)
    ensures PendingOk(ReleasePending(q, key, user))
  {
    if key in q.pending {
      var pending := q.pending - {key};
      assert pending.Keys == q.pending.Keys - {key} && |pending| == |pending.Keys| && |q.pending| == |q.pending.Keys|;
      SumDecrement(q.pendingByUser, user);
      assert key in KeysOf(q.pending, user);
      forall u
        ensures Count(Decrement(q.pendingByUser, user), u) == |KeysOf(pending, u)|
      {
        KeysWithout(q.pending, key, u);
      }
    }
  }

  /** A release gives back at most what was reserved, exactly one unit if the reservation was there. */
  lemma ReleaseUse(q: Tracker, key: string, user: string, u: string)
    requires PendingOk(q) && (key in q.pending ==> q.pending[key] == user)
    ensures Use(ReleasePending(q, key, user), u) == Use(q, u) - if key in q.pending && u == user then 1 else 0
    ensures ReleasePending(q, key, user).pendingTotal == q.pendingTotal - if key in q.pending then 1 else 0
  {
    if key in q.pending {
      assert key in KeysOf(q.pending, user);
    }
  }

  ghost predicate Inv(w: World, limits: Limits, clients: iset<Client>) {
    PendingOk(w.tracker) && LiveOk(w.tracker, w.live) && Owned(w, clients) && Bounded(w, limits)
  }

  lemma OwnKey(w: World, clients: iset<Client>, c: Client)
    requires Owned(w, clients) && NoSharedKeys(clients) && c in clients && Key(c) in w.tracker.pending
    ensures w.tracker.pending[Key(c)] == c.user
  {
  }

  lemma AllowInv(w: World, limits: Limits, clients: iset<Client>, c: Client)
    requires Inv(w, limits, clients) && c in clients
    ensures Inv(AllowStep(w, limits, c), limits, clients)
  {
    if Key(c) !in w.tracker.pending && Available(w.tracker, limits, c.user) {
      ReserveKeeps(w.tracker, c);
    }
  }

  lemma CreateKeepsLive(q: Tracker, live: multiset<string>, c: Client)
    requires LiveOk(q, live)
    ensures LiveOk(Create(q, c), live + multiset{c.user})
  {
    SumIncrement(q.byUser, c.user);
  }

  lemma CreatedBounded(w: World, limits: Limits, c: Client)
    requires PendingOk(w.tracker) && Bounded(w, limits)
    requires Key(c) in w.tracker.pending ==> w.tracker.pending[Key(c)] == c.user
    ensures Bounded(CreatedStep(w, c), limits)
  {
    var t := CreatedStep(w, c);
    ReleaseUse(w.tracker, Key(c), c.user, c.user);
    forall user
      ensures Use(t.tracker, user) <= limits.perUser + t.late[user]
    {
      ReleaseUse(w.tracker, Key(c), c.user, user);
      assert Use(w.tracker, user) <= limits.perUser + w.late[user];
    }
  }

  lemma CreatedInv(w: World, limits: Limits, clients: iset<Client>, c: Client)
    requires Inv(w, limits, clients) && NoSharedKeys(clients) && c in clients
    ensures Inv(CreatedStep(w, c), limits, clients)
  {
    if Key(c) in w.tracker.pending {
      OwnKey(w, clients, c);
    }
    ReleaseKeeps(w.tracker, Key(c), c.user);
    CreateKeepsLive(w.tracker, w.live, c);
    CreatedBounded(w, limits, c);
  }

  lemma DeletedInv(w: World, limits: Limits, clients: iset<Client>, user: string)
    requires Inv(w, limits, clients) && user in w.live
    ensures Inv(DeletedStep(w, user), limits, clients)
  {
    SumDecrement(w.tracker.byUser, user);
    var t := DeletedStep(w, user);
    forall u
      ensures Count(t.tracker.byUser, u) == t.live[u] && Use(t.tracker, u) <= Use(w.tracker, u)
    {
      assert Count(w.tracker.byUser, u) == w.live[u];
    }
  }

  lemma ExpiredInv(w: World, limits: Limits, clients: iset<Client>, c: Client)
    requires Inv(w, limits, clients) && NoSharedKeys(clients) && c in clients
    ensures Inv(ExpiredStep(w, c), limits, clients)
  {
    if Key(c) in w.tracker.pending {
      OwnKey(w, clients, c);
      ReleaseKeeps(w.tracker, Key(c), c.user);
      var t := ExpiredStep(w, c);
      forall user
        ensures Use(t.tracker, user) <= limits.perUser + t.late[user]
      {
        ReleaseUse(w.tracker, Key(c), c.user, user);
        assert Use(w.tracker, user) <= limits.perUser + w.late[user];
      }
    }
  }

  lemma StepInv(w: World, limits: Limits, clients: iset<Client>, e: Event)
    requires Inv(w, limits, clients) && NoSharedKeys(clients) && (e.Deleted? || e.client in clients)
    ensures Inv(Step(w, limits, e), limits, clients)
  {
    match e
    case Allow(c) => AllowInv(w, limits, clients, c);
    case Created(c) => CreatedInv(w, limits, clients, c);
    case Deleted(user) => if user in w.live { DeletedInv(w, limits, clients, user); }
    case Expired(c) => if c in w.armed { ExpiredInv(w, limits, clients, c); }
  }

  lemma {:induction false} RunInv(limits: Limits, clients: iset<Client>, events: seq<Event>)
    requires NoSharedKeys(clients) && From(events, clients)
    ensures Inv(Run(limits, events), limits, clients)
  {
    if events == [] {
      assert forall user :: KeysOf(map[], user) == {};
    } else {
      var n := |events| - 1;
      RunInv(limits, clients, events[..n]);
      StepInv(Run(limits, events[..n]), limits, clients, events[n]);
    }
  }

  // ---------- Main results ----------

  /** Conservation, and the bound that goes with it, hold after every event of every run. */
  lemma QuotaConserved(limits: Limits, clients: iset<Client>, events: seq<Event>)
    requires NoSharedKeys(clients) && From(events, clients)
    ensures Conserved(Run(limits, events)) && Bounded(Run(limits, events), limits)
  {
    RunInv(limits, clients, events);
  }

  /** If event i is an allocation, its reservation is pending when it comes. */
  ghost predicate Reserved(limits: Limits, events: seq<Event>, i: nat)
    requires i < |events|
  {
    events[i].Created? ==> Key(events[i].client) in Run(limits, events[..i]).tracker.pending
  }

  /** When every allocation uses up its own reservation, both quotas hold exactly. */
  lemma QuotaExact(limits: Limits, clients: iset<Client>, events: seq<Event>, user: string)
    requires NoSharedKeys(clients) && From(events, clients)
    requires forall i :: 0 <= i < |events| ==> Reserved(limits, events, i)
    ensures var w := Run(limits, events);
            && |w.live| + |w.tracker.pending| <= limits.maxTotal
            && w.live[user] + |KeysOf(w.tracker.pending, user)| <= limits.perUser
  {
    RunInv(limits, clients, events);
    NeverLate(limits, events);
    var w := Run(limits, events);
    assert Use(w.tracker, user) <= limits.perUser + w.late[user];
    assert Use(w.tracker, user) == w.live[user] + |KeysOf(w.tracker.pending, user)|;
  }

  lemma LateStays(w: World, limits: Limits, e: Event)
    requires e.Created? ==> Key(e.client) in w.tracker.pending
    ensures Step(w, limits, e).late == w.late
  {
  }

  lemma {:induction false} NeverLate(limits: Limits, events: seq<Event>)
    requires forall i :: 0 <= i < |events| ==> Reserved(limits, events, i)
    ensures Run(limits, events).late == multiset{}
  {
    if events != [] {
      var n := |events| - 1;
      forall i | 0 <= i < n
        ensures Reserved(limits, events[..n], i)
      {
        assert events[..n][..i] == events[..i] && Reserved(limits, events, i);
      }
      NeverLate(limits, events[..n]);
      assert Reserved(limits, events, n);
      LateStays(Run(limits, events[..n]), limits, events[n]);
    }
  }

  // ---------- The books without counters ----------

  /** What the quota is about: reservations, live allocations and the timers that have been started. */
  datatype Book = Book(pending: map<string, string>, live: multiset<string>, armed: set<Client>)

  function BookOf(w: World): Book {
    Book(w.tracker.pending, w.live, w.armed)
  }

  /** One event as the quota means it: by counting what there is, not by keeping counters. */
  function BookStep(b: Book, limits: Limits, e: Event): Book {
    match e
    case Allow(c) =>
      if Key(c) in b.pending then b
      else if |b.live| + |b.pending| < limits.maxTotal && b.live[c.user] + |KeysOf(b.pending, c.user)| < limits.perUser
      then b.(pending := b.pending[Key(c) := c.user], armed := b.armed + {c})
      else b
    case Created(c) => b.(pending := b.pending - {Key(c)}, live := b.live + multiset{c.user})
    case Deleted(user) => if user in b.live then b.(live := b.live - multiset{user}) else b
    case Expired(c) => if c in b.armed then b.(pending := b.pending - {Key(c)}) else b
  }

  function BookRun(limits: Limits, events: seq<Event>): Book {
    if events == [] then Book(map[], multiset{}, {})
    else BookStep(BookRun(limits, events[..|events| - 1]), limits, events[|events| - 1])
  }

  lemma BookOfStep(w: World, limits: Limits, e: Event)
    requires PendingOk(w.tracker) && LiveOk(w.tracker, w.live)
    ensures BookOf(Step(w, limits, e)) == BookStep(BookOf(w), limits, e)
  {
    match e
    case Allow(c) =>
      assert Count(w.tracker.byUser, c.user) == w.live[c.user];
      assert Count(w.tracker.pendingByUser, c.user) == |KeysOf(w.tracker.pending, c.user)|;
    case Created(c) => assert Key(c) !in w.tracker.pending ==> w.tracker.pending - {Key(c)} == w.tracker.pending;
    case Deleted(user) =>
    case Expired(c) => assert Key(c) !in w.tracker.pending ==> w.tracker.pending - {Key(c)} == w.tracker.pending;
  }

  /**
   The counters decide as counting would: in every run without shared keys, the tracker makes and
   releases exactly the reservations that books without counters would.
   */
  lemma {:induction false} CountersDecide(limits: Limits, clients: iset<Client>, events: seq<Event>)
    requires NoSharedKeys(clients) && From(events, clients)
    ensures BookOf(Run(limits, events)) == BookRun(limits, events)
  {
    if events != [] {
      var n := |events| - 1;
      CountersDecide(limits, clients, events[..n]);
      RunInv(limits, clients, events[..n]);
      BookOfStep(Run(limits, events[..n]), limits, events[n]);
    }
  }

  /**
   In every such run, a client whose key is not pending gets a reservation if and only if the live
   and reserved allocations are below the total quota and those of the user below the user's.
   */
  lemma GrantedExactly(limits: Limits, clients: iset<Client>, events: seq<Event>, c: Client)
    requires NoSharedKeys(clients) && From(events, clients) && Key(c) !in Run(limits, events).tracker.pending
    ensures var w, next := Run(limits, events), Run(limits, events + [Allow(c)]);
            && (Key(c) in next.tracker.pending <==>
                  && |w.live| + |w.tracker.pending| < limits.maxTotal
                  && w.live[c.user] + |KeysOf(w.tracker.pending, c.user)| < limits.perUser)
            && next.live == w.live
  {
    RunInv(limits, clients, events);
    assert (events + [Allow(c)])[..|events|] == events;
    BookOfStep(Run(limits, events), limits, Allow(c));
  }

  /** Two users with one key: the second one's allocation is charged to the wrong reservation. */
  lemma SharedKeyBreaks(limits: Limits, c: Client, d: Client)
    requires Key(c) == Key(d) && c.user != d.user && limits.perUser >= 1 && limits.maxTotal >= 1
    ensures !Conserved(Run(limits, [Allow(c), Created(d)]))
  {
    var w := Run(limits, [Allow(c)]);
    assert [Allow(c)][..0] == [] && Run(limits, []) == EMPTY;
    assert w == AllowStep(EMPTY, limits, c);
    assert [Allow(c), Created(d)][..1] == [Allow(c)];
    var q := Run(limits, [Allow(c), Created(d)]).tracker;
    assert q == Create(w.tracker, d);
    assert q.pending == map[];
    assert KeysOf(q.pending, c.user) == {};
    assert Count(q.pendingByUser, c.user) == 1;
  }

  /** The counters are conserved by every run over these clients exactly when no two users share a key. */
  lemma ConservedExactly(limits: Limits, clients: iset<Client>)
    requires limits.perUser >= 1 && limits.maxTotal >= 1
    ensures (forall events :: From(events, clients) ==> Conserved(Run(limits, events))) <==> NoSharedKeys(clients)
  {
    if NoSharedKeys(clients) {
      forall events | From(events, clients)
        ensures Conserved(Run(limits, events))
      {
        QuotaConserved(limits, clients, events);
      }
    } else {
      var c, d :| c in clients && d in clients && Key(c) == Key(d) && c.user != d.user;
      SharedKeyBreaks(limits, c, d);
      assert From([Allow(c), Created(d)], clients);
    }
  }

  /** Real addresses print no bar and never as "<nil>": then no two users share a key. */
  lemma UsualClients(clients: iset<Client>)
    requires forall c :: c in clients ==> Plain(c.address) && (c.address.Address? ==> c.address.text != "<nil>")
    ensures NoSharedKeys(clients)
  {
    forall c, d | c in clients && d in clients && Key(c) == Key(d)
      ensures c.user == d.user
    {
      SharedKey(c, d);
    }
  }

  /** The first bar of a string determines what is before it. */
  lemma FirstBar(x: string, s: string, y: string, t: string)
    requires '|' !in x && '|' !in y && x + "|" + s == y + "|" + t
    ensures x == y
  {
    var whole := x + "|" + s;
    assert whole[|x|] == '|' && whole[|y|] == '|';
    assert whole[..|x|] == x && whole[..|y|] == y;
    assert forall i :: 0 <= i < |x| ==> whole[i] == x[i];
    assert forall i :: 0 <= i < |y| ==> whole[i] == y[i];
  }

  function AfterUser(c: Client): string {
    match c.address
    case Nil => "<nil>"
    case Address(network, text) => network + "|" + text
  }

  lemma KeySplit(c: Client)
    ensures Key(c) == c.user + "|" + AfterUser(c)
  {
  }

  /** User names without bars never share a key, whatever their addresses print. */
  lemma BarFreeUsers(clients: iset<Client>)
    requires forall c :: c in clients ==> '|' !in c.user
    ensures NoSharedKeys(clients)
  {
    forall c, d | c in clients && d in clients && Key(c) == Key(d)
      ensures c.user == d.user
    {
      KeySplit(c);
      KeySplit(d);
      FirstBar(c.user, AfterUser(c), d.user, AfterUser(d));
    }
  }

  // ---------- The users there are ----------

  /** What may stand in a peer identifier; beyond ASCII more than letters, digits and marks is let through here. */
  predicate IdentifierChar(c: char) {
    'a' <= c <= 'z' || 'A' <= c <= 'Z' || '0' <= c <= '9' || c in "-_." || c >= '\U{80}'
  }

  predicate IsPeerId(peer: string) {
    forall i :: 0 <= i < |peer| ==> IdentifierChar(peer[i])
  }

  /** The user name in the credentials that the server issues to a peer. */
  function IssuedName(expiresAt: int, peer: string): string {
    Itoa(expiresAt) + ":" + peer
  }

  predicate Issued(user: string, expiresAt: int, peer: string) {
    IsPeerId(peer) && user == IssuedName(expiresAt, peer)
  }

  /** For the users that the server itself has named, everything is conserved and bounded in every run. */
  lemma IssuedQuota(limits: Limits, clients: iset<Client>, events: seq<Event>)
    requires forall c :: c in clients ==> exists expiresAt, peer :: Issued(c.user, expiresAt, peer)
    requires From(events, clients)
    ensures Conserved(Run(limits, events)) && Bounded(Run(limits, events), limits)
  {
    forall c | c in clients
      ensures '|' !in c.user
    {
      var expiresAt, peer :| Issued(c.user, expiresAt, peer);
      assert IsNumeral(Itoa(expiresAt));
    }
    BarFreeUsers(clients);
    QuotaConserved(limits, clients, events);
  }

  /** The key function by itself does confuse users whose names hold bars; no issued name does. */
  lemma NilLookalike()
    ensures var c := Client("a|udp", Nil);
            var d := Client("a", Address("udp", "<nil>"));
            Plain(d.address) && Key(c) == Key(d) && c.user != d.user
  {
  }
}
