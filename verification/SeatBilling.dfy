/** Per-seat billing against Stripe: local seat rows mirror remote subscriptions, and any remote call may
raise before or after its effect.  The quantity of a subscription stands for that of its only item. */
module SeatBilling {
  import opened Outcomes

  datatype Outcome = Works | RaisesBefore | RaisesAfter

  datatype Lookup = LookupRaises | NoOrg | FoundOrg

  /** What each call of one operation does: building a client, the remote calls, the organisation lookup. */
  datatype Faults = Faults(client: bool, innerClient: bool, customer: Outcome, create: Outcome,
                           lookup: Lookup, retrieve: Outcome, update: Outcome, cancel: Outcome)

  /** The identifiers Stripe gives to what it creates next. */
  datatype NewIds = NewIds(customer: string, subscription: string)

  datatype Seat = Seat(count: int, subscription: Option<string>, customer: Option<string>, outOfSync: bool)

  /** Live subscriptions with their quantities, and every subscription identifier ever issued. */
  datatype Stripe = Stripe(live: map<string, int>, issued: set<string>)

  datatype After = After(seat: Seat, orgCustomer: Option<string>, stripe: Stripe, ok: bool)

  /** `None` and the empty string are false. */
  predicate Truthy(s: Option<string>) {
    s.Some? && s.value != ""
  }

  // ----- The remote side -------------------------------------------------------------------

  function Created(stripe: Stripe, id: string, quantity: int): Stripe {
    Stripe(stripe.live[id := quantity], stripe.issued + {id})
  }

  function Cancelled(stripe: Stripe, id: string): Stripe {
    stripe.(live := stripe.live - {id})
  }

  function WithQuantity(stripe: Stripe, id: string, quantity: int): Stripe {
    stripe.(live := stripe.live[id := quantity])
  }

  class StripeClient {
    var live: map<string, int>
    var issued: set<string>

    function State(): Stripe
      reads this
    {
      Stripe(live, issued)
    }

    constructor ()
      ensures State() == Stripe(map[], {})
    {
      live, issued := map[], {};
    }

    method CreateSubscription(id: string, quantity: int, outcome: Outcome) returns (raised: bool)
      modifies this
      ensures raised == !outcome.Works?
      ensures State() == if outcome.RaisesBefore? then old(State()) else Created(old(State()), id, quantity)
    {
      if !outcome.RaisesBefore? {
        live, issued := live[id := quantity], issued + {id};
      }
      return !outcome.Works?;
    }

    method CancelSubscription(id: string, outcome: Outcome) returns (raised: bool)
      modifies this
      ensures raised == (!outcome.Works? || id !in old(live))
      ensures State() == if outcome.RaisesBefore? then old(State()) else Cancelled(old(State()), id)
    {
      raised := !outcome.Works? || id !in live;
      if !outcome.RaisesBefore? {
        live := live - {id};
      }
    }

    /** Cancelled subscriptions can still be retrieved. */
    method RetrieveSubscription(id: string, outcome: Outcome) returns (raised: bool)
      ensures raised == (!outcome.Works? || id !in issued)
    {
      raised := !outcome.Works? || id !in issued;
    }

    method UpdateQuantity(id: string, quantity: int, outcome: Outcome) returns (raised: bool)
      modifies this
      ensures raised == (!outcome.Works? || id !in old(live))
      ensures State() == if outcome.RaisesBefore? || id !in old(live) then old(State()) else WithQuantity(old(State()), id, quantity)
    {
      raised := !outcome.Works? || id !in live;
      if !outcome.RaisesBefore? && id in live {
        live := live[id := quantity];
      }
    }
  }

  // ----- One operation on one seat ---------------------------------------------------------

  function OutOfSync(seat: Seat): Seat {
    seat.(outOfSync := true)
  }

  /** A subscription for a seat that has none, for its current count. */
  function Ensured(seat: Seat, orgCustomer: Option<string>, stripe: Stripe, f: Faults, ids: NewIds): After {
    if seat.subscription.Some? then After(seat, orgCustomer, stripe, true)
    else if f.innerClient || (!Truthy(orgCustomer) && !f.customer.Works?) then
      After(OutOfSync(seat), orgCustomer, stripe, false)
    else
      var customer := if Truthy(orgCustomer) then orgCustomer else Some(ids.customer);
      var known := seat.(customer := customer);
      match f.create
      case Works => After(known.(subscription := Some(ids.subscription)), customer, Created(stripe, ids.subscription, seat.count), true)
      case RaisesBefore => After(OutOfSync(known), customer, stripe, false)
      case RaisesAfter => After(OutOfSync(known), customer, Created(stripe, ids.subscription, seat.count), false)
  }

  function Clamped(n: int): int {
    if n < 0 then 0 else n
  }

  /** The count recorded, and the subscription cancelled, or created if there is none and then set to it. */
  function Updated(seat: Seat, orgCustomer: Option<string>, stripe: Stripe, n: int, f: Faults, ids: NewIds): After {
    var counted := seat.(count := Clamped(n));
    if f.client then After(OutOfSync(counted), orgCustomer, stripe, false)
    else if Clamped(n) == 0 && Truthy(seat.subscription) then
      var id := seat.subscription.value;
      var remote := if f.cancel.RaisesBefore? then stripe else Cancelled(stripe, id);
      if f.cancel.Works? && id in stripe.live
      then After(counted.(subscription := None, outOfSync := false), orgCustomer, remote, true)
      else After(OutOfSync(counted), orgCustomer, remote, false)
    else if seat.subscription.None? && !f.lookup.FoundOrg? then After(OutOfSync(counted), orgCustomer, stripe, false)
    else
      var ensured := Ensured(counted, orgCustomer, stripe, f, ids);
      if !ensured.ok then ensured
      else
        var id := ensured.seat.subscription.value;
        if !f.retrieve.Works? || id !in ensured.stripe.issued then ensured.(seat := OutOfSync(ensured.seat), ok := false)
        else
          var remote := if f.update.RaisesBefore? || id !in ensured.stripe.live then ensured.stripe
                        else WithQuantity(ensured.stripe, id, Clamped(n));
          if f.update.Works? && id in ensured.stripe.live
          then After(ensured.seat.(outOfSync := false), ensured.orgCustomer, remote, true)
          else After(OutOfSync(ensured.seat), ensured.orgCustomer, remote, false)
  }

  class Organization {
    var stripeCustomerId: Option<string>

    constructor (customer: Option<string>)
      ensures stripeCustomerId == customer
    {
      stripeCustomerId := customer;
    }
  }

  class SeatRow {
    var seatCount: int
    var stripeSubscriptionId: Option<string>
    var stripeCustomerId: Option<string>
    var outOfSync: bool
    var updatedAt: int

    function State(): Seat
      reads this
    {
      Seat(seatCount, stripeSubscriptionId, stripeCustomerId, outOfSync)
    }

    constructor ()
      ensures State() == Seat(0, None, None, false)
    {
      seatCount, stripeSubscriptionId, stripeCustomerId, outOfSync, updatedAt := 0, None, None, false, 0;
    }

    method EnsureSubscription(org: Organization, stripe: StripeClient, f: Faults, ids: NewIds, now: int) returns (ok: bool)
      modifies this, org, stripe
      ensures After(State(), org.stripeCustomerId, stripe.State(), ok)
           == Ensured(old(State()), old(org.stripeCustomerId), old(stripe.State()), f, ids)
      ensures updatedAt == if old(stripeSubscriptionId).None? && ok then now else old(updatedAt)
    {
      if stripeSubscriptionId.Some? {
        return true;
      }
      if f.innerClient {
        outOfSync := true;
        return false;
      }
      var customerId: Option<string>;
      if Truthy(org.stripeCustomerId) {
        customerId := org.stripeCustomerId;
      } else {
        if !f.customer.Works? {
          outOfSync := true;
          return false;
        }
        customerId := Some(ids.customer);
        org.stripeCustomerId := customerId;
      }
      stripeCustomerId := customerId;
      var raised := stripe.CreateSubscription(ids.subscription, seatCount, f.create);
      if raised {
        outOfSync := true;
        return false;
      }
      stripeSubscriptionId := Some(ids.subscription);
      updatedAt := now;
      return true;
    }

    method UpdateSeatCount(org: Organization, stripe: StripeClient, n: int, f: Faults, ids: NewIds, now: int) returns (ok: bool)
      modifies this, org, stripe
      ensures After(State(), org.stripeCustomerId, stripe.State(), ok)
           == Updated(old(State()), old(org.stripeCustomerId), old(stripe.State()), n, f, ids)
      ensures updatedAt == now
    {
      var newCount := if n > 0 then n else 0;
      seatCount := newCount;
      updatedAt := now;
      var raised: bool;
      if f.client {
        outOfSync := true;
        return false;
      }
      if newCount == 0 && Truthy(stripeSubscriptionId) {
        raised := stripe.CancelSubscription(stripeSubscriptionId.value, f.cancel);
        if raised {
          outOfSync := true;
          return false;
        }
        stripeSubscriptionId := None;
        outOfSync := false;
        return true;
      }
      if stripeSubscriptionId.None? {
        if f.lookup.LookupRaises? {
          outOfSync := true;
          return false;
        }
        if f.lookup.NoOrg? {
          outOfSync := true;
          return false;
        }
        var created := EnsureSubscription(org, stripe, f, ids, now);
        if !created {
          return false;
        }
      }
      raised := stripe.RetrieveSubscription(stripeSubscriptionId.value, f.retrieve);
      if raised {
        outOfSync := true;
        return false;
      }
      raised := stripe.UpdateQuantity(stripeSubscriptionId.value, newCount, f.update);
      if raised {
        outOfSync := true;
        return false;
      }
      outOfSync := false;
      return true;
    }

    /** The seat found by its subscription takes over the quantity reported. */
    method ReconcileFromWebhook(quantity: int, now: int)
      modifies this
      ensures State() == Reconciled(old(State()), quantity) && updatedAt == now
    {
      seatCount := quantity;
      outOfSync := false;
      updatedAt := now;
    }

    /** The subscribe endpoint: a subscription for the count stored so far, then the members are counted. */
    method Subscribe(org: Organization, stripe: StripeClient, members: nat, f: Faults, ids: NewIds, now: int)
      modifies this, org, stripe
      ensures var after := Subscribed(old(State()), old(org.stripeCustomerId), old(stripe.State()), members, f, ids);
              State() == after.seat && org.stripeCustomerId == after.orgCustomer && stripe.State() == after.stripe
    {
      var ok := EnsureSubscription(org, stripe, f, ids, now);
      seatCount := members;
    }
  }

  function Reconciled(seat: Seat, quantity: int): Seat {
    seat.(count := quantity, outOfSync := false)
  }

  function Subscribed(seat: Seat, orgCustomer: Option<string>, stripe: Stripe, members: nat, f: Faults, ids: NewIds): After {
    var ensured := Ensured(seat, orgCustomer, stripe, f, ids);
    ensured.(seat := ensured.seat.(count := members))
  }

  // ----- Consistency of one seat -----------------------------------------------------------

  /** Flagged, or without a subscription and without seats, or with Stripe's own quantity. */
  predicate Consistent(seat: Seat, stripe: Stripe) {
    || seat.outOfSync
    || (seat.subscription.None? && seat.count == 0)
    || (seat.subscription.Some? && seat.subscription.value in stripe.live && stripe.live[seat.subscription.value] == seat.count)
  }

  /** Stripe issues non-empty identifiers, and a fresh one for each subscription. */
  predicate Sound(stripe: Stripe) {
    stripe.live.Keys <= stripe.issued && "" !in stripe.issued
  }

  predicate Fresh(stripe: Stripe, ids: NewIds) {
    ids.subscription != "" && ids.subscription !in stripe.issued
  }

  /** Only the seat's own subscription and the one just created can have changed. */
  ghost predicate OthersKept(before: Stripe, after: Stripe, own: Option<string>, ids: NewIds) {
    && before.issued <= after.issued <= before.issued + {ids.subscription}
    && forall id | Some(id) != own && id != ids.subscription ::
         (id in before.live <==> id in after.live) && (id in before.live ==> before.live[id] == after.live[id])
  }

  /** The subscription a seat ends with: the one it had, the one just created, or none. */
  predicate OwnOrNew(before: Seat, after: Seat, stripe: Stripe, ids: NewIds) {
    after.subscription.Some? ==> after.subscription == before.subscription
                                 || (after.subscription == Some(ids.subscription) && ids.subscription in stripe.issued)
  }

  lemma EnsureIsLocal(seat: Seat, orgCustomer: Option<string>, stripe: Stripe, f: Faults, ids: NewIds)
    requires Sound(stripe) && Fresh(stripe, ids)
    ensures var after := Ensured(seat, orgCustomer, stripe, f, ids);
            && Sound(after.stripe) && OthersKept(stripe, after.stripe, seat.subscription, ids)
            && OwnOrNew(seat, after.seat, after.stripe, ids) && after.seat.count == seat.count
            && (!after.ok ==> after.seat.outOfSync)
            && (after.ok ==> after.seat.subscription.Some? && after.seat.outOfSync == seat.outOfSync)
            && (seat.subscription.None? || Consistent(seat, stripe) ==> Consistent(after.seat, after.stripe))
  {
  }

  /** When a subscription is there or gets created, and what is recorded of it. */
  lemma EnsureSucceedsExactly(seat: Seat, orgCustomer: Option<string>, stripe: Stripe, f: Faults, ids: NewIds)
    ensures var after := Ensured(seat, orgCustomer, stripe, f, ids);
            var known := orgCustomer.Some? && orgCustomer.value != "";
            && (after.ok <==> seat.subscription.Some? || (!f.innerClient && (known || f.customer.Works?) && f.create.Works?))
            && (seat.subscription.Some? ==> after == After(seat, orgCustomer, stripe, true))
            && (seat.subscription.None? && after.ok ==>
                  && after.seat.subscription == Some(ids.subscription) && after.stripe.live == stripe.live[ids.subscription := seat.count]
                  && after.seat.customer == after.orgCustomer)
            && (seat.subscription.None? && !after.ok ==> after.seat.subscription == None)
            && after.orgCustomer == (if seat.subscription.None? && !f.innerClient && !known && f.customer.Works?
                                     then Some(ids.customer) else orgCustomer)
            && (seat.subscription.None? && !after.ok && !f.innerClient && (known || f.customer.Works?) && f.create.RaisesAfter? ==>
                  ids.subscription in after.stripe.live)
  {
  }

  /** When an update succeeds: without seats it cancels what there is; otherwise a subscription must be there or
      be created, be retrieved and take the quantity. */
  lemma UpdateSucceedsExactly(seat: Seat, orgCustomer: Option<string>, stripe: Stripe, n: int, f: Faults, ids: NewIds)
    requires Sound(stripe)
    ensures var after := Updated(seat, orgCustomer, stripe, n, f, ids);
            var known := orgCustomer.Some? && orgCustomer.value != "";
            && (n <= 0 && seat.subscription.Some? && seat.subscription.value != "" ==>
                  (after.ok <==> !f.client && f.cancel.Works? && seat.subscription.value in stripe.live))
            && (n > 0 && seat.subscription.Some? ==>
                  (after.ok <==> !f.client && f.retrieve.Works? && f.update.Works? && seat.subscription.value in stripe.live))
            && (seat.subscription.None? ==>
                  (after.ok <==> !f.client && f.lookup.FoundOrg? && !f.innerClient && (known || f.customer.Works?)
                                 && f.create.Works? && f.retrieve.Works? && f.update.Works?))
            && (after.ok && after.seat.subscription.Some? ==>
                  after.seat.subscription.value in after.stripe.live && after.stripe.live[after.seat.subscription.value] == after.seat.count)
  {
    EnsureSucceedsExactly(seat.(count := if n > 0 then n else 0), orgCustomer, stripe, f, ids);
  }

  lemma UpdateIsLocal(seat: Seat, orgCustomer: Option<string>, stripe: Stripe, n: int, f: Faults, ids: NewIds)
    requires Sound(stripe) && Fresh(stripe, ids)
    ensures var after := Updated(seat, orgCustomer, stripe, n, f, ids);
            && Sound(after.stripe) && OthersKept(stripe, after.stripe, seat.subscription, ids)
            && OwnOrNew(seat, after.seat, after.stripe, ids)
            && after.seat.count == (if n > 0 then n else 0)
  {
    if seat.subscription.None? {
      EnsureIsLocal(seat.(count := Clamped(n)), orgCustomer, stripe, f, ids);
    }
  }

  lemma UpdateIsConsistent(seat: Seat, orgCustomer: Option<string>, stripe: Stripe, n: int, f: Faults, ids: NewIds)
    requires Sound(stripe) && Fresh(stripe, ids)
    ensures var after := Updated(seat, orgCustomer, stripe, n, f, ids);
            (after.ok <==> !after.seat.outOfSync) && Consistent(after.seat, after.stripe)
  {
    if seat.subscription.None? {
      EnsureIsLocal(seat.(count := Clamped(n)), orgCustomer, stripe, f, ids);
    }
  }

  /** Without seats the subscription is cancelled and forgotten; a seat that stays subscribed keeps its own. */
  lemma UpdateCancels(seat: Seat, orgCustomer: Option<string>, stripe: Stripe, n: int, f: Faults, ids: NewIds)
    ensures var after := Updated(seat, orgCustomer, stripe, n, f, ids);
            && (n <= 0 && after.ok && seat.subscription.Some? && seat.subscription.value != "" ==>
                  after.seat.subscription.None? && seat.subscription.value !in after.stripe.live)
            && (seat.subscription.Some? && after.seat.subscription.Some? ==> after.seat.subscription == seat.subscription)
            && (seat.subscription.Some? && (n > 0 || !after.ok) ==> after.seat.subscription == seat.subscription)
  {
  }

  /** True is answered exactly when the seat is left in sync, and then it really is; without seats its
      subscription is cancelled and forgotten; a seat that stays subscribed keeps its own; nothing of another seat
      moves. */
  lemma UpdateIsExact(seat: Seat, orgCustomer: Option<string>, stripe: Stripe, n: int, f: Faults, ids: NewIds)
    requires Sound(stripe) && Fresh(stripe, ids)
    ensures var after := Updated(seat, orgCustomer, stripe, n, f, ids);
            && (after.ok <==> !after.seat.outOfSync)
            && Consistent(after.seat, after.stripe)
            && after.seat.count == (if n > 0 then n else 0)
            && Sound(after.stripe) && OthersKept(stripe, after.stripe, seat.subscription, ids)
            && OwnOrNew(seat, after.seat, after.stripe, ids)
            && (n <= 0 && after.ok && seat.subscription.Some? && seat.subscription.value != "" ==>
                  after.seat.subscription.None? && seat.subscription.value !in after.stripe.live)
            && (seat.subscription.Some? && after.seat.subscription.Some? ==> after.seat.subscription == seat.subscription)
            && (seat.subscription.Some? && (n > 0 || !after.ok) ==> after.seat.subscription == seat.subscription)
  {
    hide *;
    UpdateIsLocal(seat, orgCustomer, stripe, n, f, ids);
    UpdateIsConsistent(seat, orgCustomer, stripe, n, f, ids);
    UpdateCancels(seat, orgCustomer, stripe, n, f, ids);
  }

  /** A webhook leaves the seat consistent exactly when it carries the quantity Stripe has now. */
  lemma ReconcileIsExact(seat: Seat, stripe: Stripe, quantity: int)
    requires seat.subscription.Some?
    ensures Consistent(Reconciled(seat, quantity), stripe) <==>
            seat.subscription.value in stripe.live && stripe.live[seat.subscription.value] == quantity
  {
  }

  /** The calls that leave a seat without a subscription when one is to be created. */
  predicate EnsureFails(seat: Seat, orgCustomer: Option<string>, f: Faults) {
    seat.subscription.None? && (f.innerClient || (!Truthy(orgCustomer) && !f.customer.Works?) || !f.create.Works?)
  }

  /** The subscribe endpoint overwrites the count after telling Stripe the old one: from a consistent seat it
      leaves a consistent one exactly when that seat was flagged before, the number of members is the count
      already stored, or the subscription cannot be created. */
  lemma SubscribeIsExact(seat: Seat, orgCustomer: Option<string>, stripe: Stripe, members: nat, f: Faults, ids: NewIds)
    requires Sound(stripe) && Fresh(stripe, ids) && Consistent(seat, stripe)
    ensures var after := Subscribed(seat, orgCustomer, stripe, members, f, ids);
            Consistent(after.seat, after.stripe) <==> seat.outOfSync || members == seat.count || EnsureFails(seat, orgCustomer, f)
  {
    EnsureIsLocal(seat, orgCustomer, stripe, f, ids);
  }

  /** Whatever the calls do: the endpoint is safe exactly on a flagged seat or for the count already stored. */
  lemma {:induction false} SubscribeIsSafeExactly(seat: Seat, orgCustomer: Option<string>, stripe: Stripe, members: nat, ids: NewIds)
    requires Sound(stripe) && Fresh(stripe, ids) && Consistent(seat, stripe)
    ensures (forall f :: var after := Subscribed(seat, orgCustomer, stripe, members, f, ids); Consistent(after.seat, after.stripe))
       <==> seat.outOfSync || members == seat.count
  {
    hide Subscribed, Consistent;
    forall f
      ensures var after := Subscribed(seat, orgCustomer, stripe, members, f, ids);
              Consistent(after.seat, after.stripe) <==> seat.outOfSync || members == seat.count || EnsureFails(seat, orgCustomer, f)
    {
      SubscribeIsExact(seat, orgCustomer, stripe, members, f, ids);
    }
    var quiet := Faults(false, false, Works, Works, FoundOrg, Works, Works, Works);
    var after := Subscribed(seat, orgCustomer, stripe, members, quiet, ids);
    assert Consistent(after.seat, after.stripe) <==> seat.outOfSync || members == seat.count;
  }

  /** A first subscribe with members, nothing raising: billed for no seats, counted as `members`, not flagged. */
  lemma FirstSubscribeUnderbills(members: nat, f: Faults, ids: NewIds)
    requires members > 0 && ids.subscription != "" && !f.innerClient && f.customer.Works? && f.create.Works?
    ensures var after := Subscribed(Seat(0, None, None, false), None, Stripe(map[], {}), members, f, ids);
            && after.seat == Seat(members, Some(ids.subscription), Some(ids.customer), false)
            && after.stripe.live == map[ids.subscription := 0]
            && !Consistent(after.seat, after.stripe)
  {
  }

  // ----- All seats, all sequences of operations --------------------------------------------

  datatype World = World(seats: map<int, Seat>, customers: map<int, Option<string>>, stripe: Stripe)

  datatype Operation =
    | GetOrCreate(org: int)
    | Ensure(org: int, f: Faults, ids: NewIds)
    | Update(org: int, n: int, f: Faults, ids: NewIds)
    | Webhook(id: string, quantity: int)
    | SubscribeCall(org: int, members: nat, f: Faults, ids: NewIds)

  predicate Allowed(w: World, op: Operation) {
    match op
    case GetOrCreate(org) => true
    case Ensure(org, f, ids) => org in w.seats && Fresh(w.stripe, ids)
    case Update(org, n, f, ids) => org in w.seats && Fresh(w.stripe, ids)
    case Webhook(id, quantity) => id in w.stripe.live && w.stripe.live[id] == quantity && quantity >= 0
    case SubscribeCall(org, members, f, ids) => org in w.seats && Fresh(w.stripe, ids)
  }

  function CustomerOf(w: World, org: int): Option<string> {
    if org in w.customers then w.customers[org] else None
  }

  function Put(w: World, org: int, after: After): World {
    World(w.seats[org := after.seat], w.customers[org := after.orgCustomer], after.stripe)
  }

  function Perform(w: World, op: Operation): World
    requires Allowed(w, op)
  {
    match op
    case GetOrCreate(org) => if org in w.seats then w else w.(seats := w.seats[org := Seat(0, None, None, false)])
    case Ensure(org, f, ids) => Put(w, org, Ensured(w.seats[org], CustomerOf(w, org), w.stripe, f, ids))
    case Update(org, n, f, ids) => Put(w, org, Updated(w.seats[org], CustomerOf(w, org), w.stripe, n, f, ids))
    case Webhook(id, quantity) =>
      w.(seats := map org | org in w.seats ::
                    if w.seats[org].subscription == Some(id) then Reconciled(w.seats[org], quantity) else w.seats[org])
    case SubscribeCall(org, members, f, ids) =>
      Put(w, org, Subscribed(w.seats[org], CustomerOf(w, org), w.stripe, members, f, ids))
  }

  /** What a call of the subscribe endpoint finds makes it harmless. */
  predicate Harmless(w: World, op: Operation)
    requires Allowed(w, op)
  {
    op.SubscribeCall? ==>
      var seat := w.seats[op.org];
      seat.outOfSync || op.members == seat.count || EnsureFails(seat, CustomerOf(w, op.org), op.f)
  }

  /** All seats are consistent with a sound Stripe, their counts are not negative, and no two share a
      subscription. */
  ghost predicate Good(w: World) {
    && Sound(w.stripe)
    && (forall org | org in w.seats :: Consistent(w.seats[org], w.stripe) && w.seats[org].count >= 0)
    && (forall org | org in w.seats :: w.seats[org].subscription.Some? ==> w.seats[org].subscription.value in w.stripe.issued)
    && (forall a, b | a in w.seats && b in w.seats && a != b :: Apart(w.seats[a], w.seats[b]))
  }

  predicate Apart(a: Seat, b: Seat) {
    a.subscription.Some? ==> a.subscription != b.subscription
  }

  /** What one seat's operation must satisfy for the others not to notice. */
  lemma PutKeepsGood(w: World, org: int, after: After, ids: NewIds)
    requires Good(w) && org in w.seats && Fresh(w.stripe, ids)
    requires Sound(after.stripe) && OthersKept(w.stripe, after.stripe, w.seats[org].subscription, ids)
    requires OwnOrNew(w.seats[org], after.seat, after.stripe, ids)
    requires Consistent(after.seat, after.stripe) && after.seat.count >= 0
    ensures Good(Put(w, org, after))
  {
    var next := Put(w, org, after);
    forall other | other in w.seats && other != org
      ensures Consistent(w.seats[other], after.stripe)
      ensures Apart(w.seats[other], after.seat) && Apart(after.seat, w.seats[other])
    {
      assert Consistent(w.seats[other], w.stripe);
      assert Apart(w.seats[other], w.seats[org]);
    }
  }

  /** Every operation keeps every seat consistent, whatever raises and whenever. */
  lemma {:induction false} OperationKeepsGood(w: World, op: Operation)
    requires Good(w) && Allowed(w, op) && Harmless(w, op)
    ensures Good(Perform(w, op))
  {
    match op
    case GetOrCreate(org) =>
    case Ensure(org, f, ids) =>
      EnsureIsLocal(w.seats[org], CustomerOf(w, org), w.stripe, f, ids);
      PutKeepsGood(w, org, Ensured(w.seats[org], CustomerOf(w, org), w.stripe, f, ids), ids);
    case Update(org, n, f, ids) =>
      UpdateIsExact(w.seats[org], CustomerOf(w, org), w.stripe, n, f, ids);
      PutKeepsGood(w, org, Updated(w.seats[org], CustomerOf(w, org), w.stripe, n, f, ids), ids);
    case Webhook(id, quantity) =>
      forall org | org in w.seats && w.seats[org].subscription == Some(id)
        ensures Consistent(Reconciled(w.seats[org], quantity), w.stripe)
      {
        ReconcileIsExact(w.seats[org], w.stripe, quantity);
      }
    case SubscribeCall(org, members, f, ids) =>
      EnsureIsLocal(w.seats[org], CustomerOf(w, org), w.stripe, f, ids);
      SubscribeIsExact(w.seats[org], CustomerOf(w, org), w.stripe, members, f, ids);
      PutKeepsGood(w, org, Subscribed(w.seats[org], CustomerOf(w, org), w.stripe, members, f, ids), ids);
  }

  predicate IsRun(ops: seq<Operation>, worlds: seq<World>) {
    && |worlds| == |ops| + 1
    && worlds[0].seats == map[] && worlds[0].stripe == Stripe(map[], {})
    && forall k | 0 <= k < |ops| :: Allowed(worlds[k], ops[k]) && worlds[k + 1] == Perform(worlds[k], ops[k])
  }

  lemma {:induction false} RunsStayConsistent(ops: seq<Operation>, worlds: seq<World>, n: nat)
    requires IsRun(ops, worlds) && n <= |ops|
    requires forall k | 0 <= k < n :: Harmless(worlds[k], ops[k])
    ensures Good(worlds[n])
  {
    if n > 0 {
      RunsStayConsistent(ops, worlds, n - 1);
      OperationKeepsGood(worlds[n - 1], ops[n - 1]);
    }
  }

  /** A run is consistent throughout exactly when each call of the subscribe endpoint in it was harmless. */
  lemma {:induction false} RunIsConsistentExactly(ops: seq<Operation>, worlds: seq<World>)
    requires IsRun(ops, worlds)
    ensures (forall k | 0 <= k < |worlds| :: Good(worlds[k])) <==> (forall k | 0 <= k < |ops| :: Harmless(worlds[k], ops[k]))
  {
    if forall k | 0 <= k < |worlds| :: Good(worlds[k]) {
      forall k | 0 <= k < |ops|
        ensures Harmless(worlds[k], ops[k])
      {
        assert Good(worlds[k]) && Good(worlds[k + 1]);
        if ops[k].SubscribeCall? {
          var op, w := ops[k], worlds[k];
          assert Consistent(worlds[k + 1].seats[op.org], worlds[k + 1].stripe);
          SubscribeIsExact(w.seats[op.org], CustomerOf(w, op.org), w.stripe, op.members, op.f, op.ids);
        }
      }
    }
    if forall k | 0 <= k < |ops| :: Harmless(worlds[k], ops[k]) {
      forall k | 0 <= k < |worlds|
        ensures Good(worlds[k])
      {
        RunsStayConsistent(ops, worlds, k);
      }
    }
  }
}
