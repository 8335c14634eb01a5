/**
 * The weighted scheduler of lib/nghttp2_stream.c, one parent at a time: the queue of its active children,
 * ordered by a virtual time `cycle` that wraps at 64 bits.  A second machine keeps the virtual times as
 * unbounded integers; the two always agree.
 */
module Scheduler {
  const CYCLE_WRAP := 0x1_0000_0000_0000_0000
  const MAX_WEIGHT := 256
  const MAX_FRAME_SIZE := 0xFF_FFFF
  /** NGHTTP2_MAX_CYCLE_DISTANCE. */
  const MAX_DISTANCE := MAX_FRAME_SIZE * 256 + 255

  type Id = nat

  /** The scheduling fields of a queued stream; `order` is the source's seq. */
  datatype Child = Child(weight: nat, lastWrite: nat, penalty: nat, cycle: int, order: nat)

  predicate ValidChild(c: Child)
  {
    1 <= c.weight <= MAX_WEIGHT && c.lastWrite <= MAX_FRAME_SIZE && c.penalty < MAX_WEIGHT
  }

  /** `base` is the parent's descendant_last_cycle, `nextOrder` its descendant_next_seq. */
  datatype Queue = Queue(base: int, nextOrder: nat, items: map<Id, Child>)

  datatype Op =
    | Push(id: Id, child: Child)          // stream_obq_push of one level
    | Remove(id: Id)                      // nghttp2_pq_remove
    | Choose(id: Id)                      // nghttp2_stream_next_outbound_item passes through the top
    | Reschedule(id: Id, length: nat)     // nghttp2_stream_reschedule of one level
    | ChangeWeight(id: Id, weight: nat)   // nghttp2_stream_change_weight
    | ResetBase                           // stream_obq_remove takes the parent itself off its queue

  // ---- arithmetic shared by both machines --------------------------------

  function Written(c: Child): nat { c.lastWrite * 256 }

  /** The penalty carried into the last charge, as change_weight recovers it. */
  function OldPenalty(c: Child): (r: nat)
    requires c.weight > 0
    ensures r < c.weight
  {
    (c.penalty + c.weight - Written(c) % c.weight) % c.weight
  }

  function Charge(c: Child, carried: nat): nat
    requires c.weight > 0
  {
    (Written(c) + carried) / c.weight
  }

  function Leftover(c: Child, carried: nat): (r: nat)
    requires c.weight > 0
    ensures r < c.weight
  {
    (Written(c) + carried) % c.weight
  }

  // ---- the machine with wrapping cycles ----------------------------------

  function Wrap(x: int): (r: nat)
    ensures r < CYCLE_WRAP
  {
    x % CYCLE_WRAP
  }

  /** stream_next_cycle. */
  function NextCycle(c: Child, last: int): Child
    requires c.weight > 0
  {
    c.(cycle := Wrap(last + Charge(c, c.penalty)), penalty := Leftover(c, c.penalty))
  }

  /** stream_less. */
  predicate Less(a: Child, b: Child)
  {
    if a.cycle == b.cycle then a.order < b.order else Wrap(b.cycle - a.cycle) <= MAX_DISTANCE
  }

  predicate IsTop(q: Queue, id: Id)
  {
    id in q.items && forall j :: j in q.items ==> !Less(q.items[j], q.items[id])
  }

  /** nghttp2_stream_change_weight on a queued stream; it keeps its order. */
  function Reweigh(c: Child, weight: nat, base: int): Child
    requires c.weight > 0 && weight > 0
  {
    var carried := OldPenalty(c);
    var last := Wrap(c.cycle - Charge(c, carried));
    var n := NextCycle(c.(weight := weight, penalty := carried), last);
    if WithinMaximum(base, n.cycle) then n.(cycle := base) else n
  }

  /** What the functions of the source ask for. */
  predicate Possible(q: Queue, op: Op)
  {
    match op
    case Push(id, c) => id !in q.items && ValidChild(c)
    case Remove(id) => id in q.items
    case Choose(id) => id in q.items
    case Reschedule(id, length) => id in q.items && length <= MAX_FRAME_SIZE
    case ChangeWeight(id, weight) => id in q.items && 1 <= weight <= MAX_WEIGHT
    case ResetBase => true
  }

  /** The steps that keep the order: the top is chosen, and the base is reset in an empty queue only. */
  predicate Enabled(q: Queue, op: Op)
  {
    Possible(q, op) && (op.Choose? ==> IsTop(q, op.id)) && (op.ResetBase? ==> q.items == map[])
  }

  predicate WellFormed(q: Queue)
  {
    && (forall j :: j in q.items ==> ValidChild(q.items[j]) && q.items[j].order < q.nextOrder)
    && forall i, j :: i in q.items && j in q.items && q.items[i].order == q.items[j].order ==> i == j
  }

  function Apply(q: Queue, op: Op): Queue
    requires WellFormed(q) && Possible(q, op)
  {
    match op
    case Push(id, c) =>
      Queue(q.base, q.nextOrder + 1, q.items[id := NextCycle(c, q.base).(order := q.nextOrder)])
    case Remove(id) => q.(items := q.items - {id})
    case Choose(id) => q.(base := q.items[id].cycle)
    case Reschedule(id, length) =>
      var c := NextCycle(q.items[id].(lastWrite := length), q.base);
      Queue(q.base, q.nextOrder + 1, q.items[id := c.(order := q.nextOrder)])
    case ChangeWeight(id, weight) =>
      if q.items[id].weight == weight then q
      else q.(items := q.items[id := Reweigh(q.items[id], weight, q.base)])
    case ResetBase => q.(base := 0)
  }

  // ---- the machine with unbounded virtual times --------------------------

  function VNextCycle(c: Child, last: int): Child
    requires c.weight > 0
  {
    c.(cycle := last + Charge(c, c.penalty), penalty := Leftover(c, c.penalty))
  }

  predicate VLess(a: Child, b: Child) { a.cycle < b.cycle || (a.cycle == b.cycle && a.order < b.order) }

  predicate VIsTop(v: Queue, id: Id)
  {
    id in v.items && forall j :: j in v.items ==> !VLess(v.items[j], v.items[id])
  }

  function VReweigh(c: Child, weight: nat, base: int): Child
    requires c.weight > 0 && weight > 0
  {
    var carried := OldPenalty(c);
    var n := VNextCycle(c.(weight := weight, penalty := carried), c.cycle - Charge(c, carried));
    if n.cycle <= base then n.(cycle := base) else n
  }

  predicate VEnabled(v: Queue, op: Op)
  {
    match op
    case Choose(id) => VIsTop(v, id)
    case _ => Enabled(v, op)
  }

  function VApply(v: Queue, op: Op): Queue
    requires WellFormed(v) && VEnabled(v, op)
  {
    match op
    case Push(id, c) =>
      Queue(v.base, v.nextOrder + 1, v.items[id := VNextCycle(c, v.base).(order := v.nextOrder)])
    case Remove(id) => v.(items := v.items - {id})
    case Choose(id) => v.(base := v.items[id].cycle)
    case Reschedule(id, length) =>
      var c := VNextCycle(v.items[id].(lastWrite := length), v.base);
      Queue(v.base, v.nextOrder + 1, v.items[id := c.(order := v.nextOrder)])
    case ChangeWeight(id, weight) =>
      if v.items[id].weight == weight then v
      else v.(items := v.items[id := VReweigh(v.items[id], weight, v.base)])
    case ResetBase => v.(base := 0)
  }

  // ---- the invariant ------------------------------------------------------

  /**
   * A queued virtual time is never behind the base; and the time before its last charge, plus the penalty
   * carried into that charge, is at most 255 ahead of it.  This survives any number of weight changes.
   */
  predicate InWindow(c: Child, base: int)
    requires c.weight > 0
  {
    var carried := OldPenalty(c);
    base <= c.cycle && c.cycle - Charge(c, carried) + carried <= base + 255
  }

  predicate VInvariant(v: Queue)
  {
    WellFormed(v) && forall j :: j in v.items ==> InWindow(v.items[j], v.base)
  }

  /** The same child but for the wrapping of its cycle. */
  predicate Matches(c: Child, vc: Child) { c == vc.(cycle := Wrap(vc.cycle)) }

  predicate Related(q: Queue, v: Queue)
  {
    && q.base == Wrap(v.base) && q.nextOrder == v.nextOrder && q.items.Keys == v.items.Keys
    && forall j :: j in q.items ==> Matches(q.items[j], v.items[j])
  }

  // ---- division -----------------------------------------------------------

  lemma {:induction false} Quotient(n: int, w: int, q: int, r: int)
    requires 0 <= r < w && n == w * q + r
    ensures n / w == q && n % w == r
  {
    var d := n / w - q;
    assert w * (n / w) + n % w == n;
    assert w * d == r - n % w by { assert w * d == w * (n / w) - w * q; }
    assert d >= 1 ==> w * d >= w;
    assert d <= -1 ==> w * d <= -w;
  }

  /** Splitting a carried penalty into whole cycles and a remainder. */
  lemma Carry(written: nat, carried: nat, w: nat)
    requires w > 0
    ensures (written + carried) / w == (written + carried % w) / w + carried / w
    ensures ((written + carried) % w + w - written % w) % w == carried % w
    ensures carried / w + carried % w <= carried
  {
    var a, b, c, d := written / w, written % w, carried / w, carried % w;
    assert written == w * a + b;
    assert carried == w * c + d;
    CarrySplit(w, a, b, c, d);
    assert c <= w * c by { MulGrows(w, c); }
  }

  lemma MulGrows(w: nat, c: nat)
    requires w > 0
    ensures c <= w * c
  {
    assert w * c == (w - 1) * c + c;
  }

  lemma CarrySplit(w: nat, a: nat, b: nat, c: nat, d: nat)
    requires b < w && d < w
    ensures var written, carried := w * a + b, w * c + d;
            && (written + carried) / w == (written + d) / w + c
            && ((written + carried) % w + w - b) % w == d
  {
    var written, carried := w * a + b, w * c + d;
    assert w * (a + c) == w * a + w * c;
    if b + d < w {
      Quotient(written + carried, w, a + c, b + d);
      Quotient(written + d, w, a, b + d);
      Quotient(d + w, w, 1, d);
    } else {
      assert w * (a + c + 1) == w * (a + c) + w;
      assert w * (a + 1) == w * a + w;
      Quotient(written + carried, w, a + c + 1, b + d - w);
      Quotient(written + d, w, a + 1, b + d - w);
      Quotient(d, w, 0, d);
    }
  }

  /** A quotient by a positive weight is at most the dividend. */
  lemma ChargeBound(n: nat, w: nat)
    requires w > 0
    ensures 0 <= n / w <= n
  {
    var q := n / w;
    assert n == w * q + n % w;
    MulGrows(w, q);
  }

  // ---- one step of the invariant ------------------------------------------

  lemma WindowBounds(c: Child, base: int)
    requires ValidChild(c) && InWindow(c, base)
    ensures base <= c.cycle <= base + MAX_DISTANCE
  {
    var carried := OldPenalty(c);
    ChargeBound(Written(c) + carried, c.weight);
  }

  /** What change_weight recovers from a charged child: the penalty and the virtual time before the charge. */
  lemma Recovered(c: Child, last: int)
    requires ValidChild(c)
    ensures OldPenalty(VNextCycle(c, last)) == c.penalty % c.weight
    ensures var n := VNextCycle(c, last);
            n.cycle - Charge(n, OldPenalty(n)) == last + c.penalty / c.weight
    ensures c.penalty / c.weight + c.penalty % c.weight <= c.penalty
  {
    Carry(Written(c), c.penalty, c.weight);
    var n := VNextCycle(c, last);
    assert Written(n) == Written(c) && n.weight == c.weight && n.penalty == (Written(c) + c.penalty) % c.weight;
  }

  lemma ChargedInWindow(c: Child, last: int, base: int)
    requires ValidChild(c) && last + c.penalty <= base + 255
    requires base <= last + Charge(c, c.penalty)
    ensures ValidChild(VNextCycle(c, last)) && InWindow(VNextCycle(c, last), base)
  {
    Recovered(c, last);
  }

  lemma ReweighInWindow(c: Child, weight: nat, base: int)
    requires ValidChild(c) && InWindow(c, base) && 1 <= weight <= MAX_WEIGHT
    ensures ValidChild(VReweigh(c, weight, base)) && InWindow(VReweigh(c, weight, base), base)
    ensures VReweigh(c, weight, base).order == c.order
  {
    var carried := OldPenalty(c);
    var last := c.cycle - Charge(c, carried);
    var d := c.(weight := weight, penalty := carried);
    Recovered(d, last);
    var n := VNextCycle(d, last);
    if n.cycle <= base {
      var m := n.(cycle := base);
      assert OldPenalty(m) == OldPenalty(n) && Charge(m, OldPenalty(m)) == Charge(n, OldPenalty(n));
      assert Charge(m, OldPenalty(m)) >= 0;
    }
  }

  // ---- what a charge and a weight change are --------------------------------------------------

  /**
   * The virtual time of a charged child has gone on by what it has written, 256 for each byte, and the penalty it
   * carried, divided by its weight; the remainder is the new penalty.
   */
  predicate Balanced(n: Child, last: int, carried: int)
  {
    n.weight * (n.cycle - last) + n.penalty == 256 * n.lastWrite + carried && 0 <= n.penalty < n.weight
  }

  lemma ChargeBalance(c: Child, last: int)
    requires c.weight > 0
    ensures var n := VNextCycle(c, last);
            Balanced(n, last, c.penalty) && n == c.(cycle := n.cycle, penalty := n.penalty)
  {
    var n, total := VNextCycle(c, last), Written(c) + c.penalty;
    assert n.cycle - last == total / c.weight && n.penalty == total % c.weight;
    assert c.weight * (total / c.weight) + total % c.weight == total;
  }

  /** There is one such child only. */
  lemma BalanceIsCharge(c: Child, n: Child, last: int)
    requires c.weight > 0 && n == c.(cycle := n.cycle, penalty := n.penalty) && Balanced(n, last, c.penalty)
    ensures n == VNextCycle(c, last)
  {
    Quotient(Written(c) + c.penalty, c.weight, n.cycle - last, n.penalty);
  }

  function Raised(c: Child, base: int): Child { if c.cycle <= base then c.(cycle := base) else c }

  /**
   * Changing the weight of a charged child is having charged it with the new weight, but not to before the base; a
   * carried penalty of whole cycles in the old weight is worth those cycles.
   */
  lemma ReweighIsCharge(c: Child, last: int, weight: nat, base: int)
    requires ValidChild(c) && weight > 0
    ensures VReweigh(VNextCycle(c, last), weight, base)
            == Raised(VNextCycle(c.(weight := weight, penalty := c.penalty % c.weight), last + c.penalty / c.weight),
                      base)
    ensures c.penalty < c.weight ==>
              VReweigh(VNextCycle(c, last), weight, base) == Raised(VNextCycle(c.(weight := weight), last), base)
  {
    Recovered(c, last);
    var n := VNextCycle(c, last);
    assert n.(weight := weight, penalty := OldPenalty(n), cycle := c.cycle)
        == c.(weight := weight, penalty := c.penalty % c.weight);
    if c.penalty < c.weight { Quotient(c.penalty, c.weight, 0, c.penalty); }
  }

  /** Weight changes one after the other. */
  function Reweighs(c: Child, weights: seq<nat>, base: int): Child
    requires c.weight > 0 && forall k :: 0 <= k < |weights| ==> weights[k] > 0
    decreases |weights|
  {
    if weights == [] then c else Reweighs(VReweigh(c, weights[0], base), weights[1..], base)
  }

  /** None of them brings the child to the base. */
  predicate StaysAhead(c: Child, weights: seq<nat>, base: int)
    requires c.weight > 0 && forall k :: 0 <= k < |weights| ==> weights[k] > 0
    decreases |weights|
  {
    weights == [] ||
    (VReweigh(c, weights[0], base).cycle > base && StaysAhead(VReweigh(c, weights[0], base), weights[1..], base))
  }

  /** The time before the last charge as change_weight sees it. */
  function Before(c: Child): int
    requires c.weight > 0
  {
    c.cycle - Charge(c, OldPenalty(c))
  }

  /** A child is always balanced against the time and the penalty that change_weight recovers. */
  lemma BeforeBalance(c: Child)
    requires c.weight > 0 && c.penalty < c.weight
    ensures Balanced(c, Before(c), OldPenalty(c))
  {
    var w, x, p := c.weight, Written(c), c.penalty;
    var a, b := x / w, x % w;
    assert x == w * a + b;
    var r := OldPenalty(c);
    if p >= b {
      Quotient(p + w - b, w, 1, p - b);
      assert w * a + b + r == w * a + p;
      Quotient(x + r, w, a, p);
    } else {
      Quotient(p + w - b, w, 0, p + w - b);
      assert w * (a + 1) == w * a + w;
      Quotient(x + r, w, a + 1, p);
    }
  }

  /** One change that does not bring the child to the base: what is recovered, and that it stays balanced. */
  lemma ReweighBefore(c: Child, weight: nat, base: int)
    requires ValidChild(c) && 1 <= weight <= MAX_WEIGHT && VReweigh(c, weight, base).cycle > base
    ensures var n := VReweigh(c, weight, base);
            && ValidChild(n) && n.weight == weight && n.penalty < weight
            && n == VNextCycle(c.(weight := weight, penalty := OldPenalty(c)), Before(c))
            && Before(n) == Before(c) + OldPenalty(c) / weight && OldPenalty(n) == OldPenalty(c) % weight
  {
    Recovered(c.(weight := weight, penalty := OldPenalty(c)), Before(c));
  }

  /**
   * After any number of weight changes that do not meet the base a child is where one charge with its last weight would
   * have brought it, and what is recovered is unchanged exactly if the carried penalty was below all these weights.
   */
  lemma {:induction false} ReweighsBalance(c: Child, weights: seq<nat>, base: int)
    requires ValidChild(c) && c.penalty < c.weight
    requires forall k :: 0 <= k < |weights| ==> 1 <= weights[k] <= MAX_WEIGHT
    requires StaysAhead(c, weights, base)
    ensures var n := Reweighs(c, weights, base);
            && ValidChild(n) && n.penalty < n.weight && n.lastWrite == c.lastWrite && n.order == c.order
            && n.weight == (if weights == [] then c.weight else weights[|weights| - 1])
            && Balanced(n, Before(n), OldPenalty(n)) && Before(c) <= Before(n)
            && (Before(n) == Before(c) && OldPenalty(n) == OldPenalty(c) <==>
                forall k :: 0 <= k < |weights| ==> OldPenalty(c) < weights[k])
            && (Before(n) == Before(c) ==> OldPenalty(n) == OldPenalty(c))
    decreases |weights|
  {
    hide OldPenalty, Before, Balanced, VReweigh, ValidChild;
    if weights == [] {
      BeforeBalance(c);
    } else {
      var w := weights[0];
      var m := VReweigh(c, w, base);
      ReweighBefore(c, w, base);
      PenaltyKept(OldPenalty(c), w);
      ReweighsBalance(m, weights[1..], base);
      if OldPenalty(c) < w {
        assert forall k :: 0 < k < |weights| ==> weights[k] == weights[1..][k - 1];
        assert forall k :: 0 <= k < |weights| - 1 ==> weights[1..][k] == weights[k + 1];
      }
    }
  }

  lemma PenaltyKept(carried: nat, w: nat)
    requires w > 0
    ensures if carried < w then carried / w == 0 && carried % w == carried else carried / w > 0
  {
    if carried < w {
      Quotient(carried, w, 0, carried);
    } else {
      var q := carried / w;
      assert w * q + carried % w == carried;
      assert q <= 0 ==> w * q <= 0;
    }
  }

  /** In that case the child is exactly where one charge with its last weight would have brought it at first. */
  lemma ReweighsAreOne(c: Child, last: int, weights: seq<nat>, base: int)
    requires ValidChild(c) && c.penalty < c.weight && weights != []
    requires forall k :: 0 <= k < |weights| ==> 1 <= weights[k] <= MAX_WEIGHT && c.penalty < weights[k]
    requires StaysAhead(VNextCycle(c, last), weights, base)
    ensures Reweighs(VNextCycle(c, last), weights, base) == VNextCycle(c.(weight := weights[|weights| - 1]), last)
  {
    var n := VNextCycle(c, last);
    Recovered(c, last);
    Quotient(c.penalty, c.weight, 0, c.penalty);
    ReweighsBalance(n, weights, base);
    var r := Reweighs(n, weights, base);
    hide Reweighs, StaysAhead, VNextCycle, OldPenalty, Before;
    BalanceIsCharge(c.(weight := weights[|weights| - 1]), r, last);
  }

  /** Otherwise not: going down to weight 1 and back again turns the carried penalty into as many whole cycles. */
  lemma PenaltyDrifts(w: nat, carried: nat, order: nat)
    requires 0 < carried < w <= MAX_WEIGHT
    ensures var c := VNextCycle(Child(w, 0, carried, 0, order), 0);
            && c == Child(w, 0, carried, 0, order)
            && VReweigh(c, 1, 0) == Child(1, 0, 0, carried, order)
            && VReweigh(VReweigh(c, 1, 0), w, 0) == Child(w, 0, 0, carried, order)
  {
    Quotient(carried, w, 0, carried);
    Quotient(0, w, 0, 0);
    Quotient(carried + w, w, 1, carried);
    Quotient(carried, 1, carried, 0);
    Quotient(1, 1, 1, 0);
  }

  /** What each step does to the fields of one child, in terms of what it owes. */
  lemma StepCharge(v: Queue, op: Op)
    requires WellFormed(v) && VEnabled(v, op)
    ensures var r := VApply(v, op);
            match op
            case Push(id, c) =>
              && r == Queue(v.base, v.nextOrder + 1, v.items[id := r.items[id]])
              && r.items[id] == c.(cycle := r.items[id].cycle, penalty := r.items[id].penalty, order := v.nextOrder)
              && Balanced(r.items[id], v.base, c.penalty)
            case Reschedule(id, length) =>
              var c := v.items[id];
              && r == Queue(v.base, v.nextOrder + 1, v.items[id := r.items[id]])
              && r.items[id] == c.(lastWrite := length, cycle := r.items[id].cycle, penalty := r.items[id].penalty,
                                   order := v.nextOrder)
              && Balanced(r.items[id], v.base, c.penalty)
            case ChangeWeight(id, weight) =>
              var c := v.items[id];
              && r == v.(items := v.items[id := r.items[id]])
              && r.items[id] == c.(weight := weight, cycle := r.items[id].cycle, penalty := r.items[id].penalty)
              && (c.weight != weight ==> v.base <= r.items[id].cycle)
              && (c.weight != weight && r.items[id].cycle > v.base ==>
                    Balanced(r.items[id], Before(c), OldPenalty(c)))
            case _ => true
  {
    match op
    case Push(id, c) => ChargeBalance(c, v.base);
    case Reschedule(id, length) => ChargeBalance(v.items[id].(lastWrite := length), v.base);
    case ChangeWeight(id, weight) =>
      var c := v.items[id];
      if c.weight == weight {
        assert v.items == v.items[id := c];
      } else {
        ChargeBalance(c.(weight := weight, penalty := OldPenalty(c)), Before(c));
      }
    case _ =>
  }

  lemma WithChild(v: Queue, id: Id, c: Child, nextOrder: nat)
    requires VInvariant(v) && ValidChild(c) && InWindow(c, v.base)
    requires v.nextOrder <= nextOrder && c.order < nextOrder
    requires forall j :: j in v.items && j != id ==> v.items[j].order != c.order
    ensures VInvariant(Queue(v.base, nextOrder, v.items[id := c]))
  {
    hide InWindow, ValidChild;
  }

  lemma ChosenBase(v: Queue, id: Id)
    requires VInvariant(v) && VIsTop(v, id)
    ensures VInvariant(v.(base := v.items[id].cycle))
    ensures v.base <= v.items[id].cycle
  {
    var v' := v.(base := v.items[id].cycle);
    assert InWindow(v.items[id], v.base);
    forall j | j in v'.items ensures InWindow(v'.items[j], v'.base) {
      assert !VLess(v.items[j], v.items[id]);
      assert InWindow(v.items[j], v.base);
    }
  }

  lemma InvariantStep(v: Queue, op: Op)
    requires VInvariant(v) && VEnabled(v, op)
    ensures VInvariant(VApply(v, op))
  {
    hide InWindow;
    match op
    case Push(id, c) =>
      ChargedInWindow(c, v.base, v.base);
      WithOrder(VNextCycle(c, v.base), v.nextOrder, v.base);
      WithChild(v, id, VNextCycle(c, v.base).(order := v.nextOrder), v.nextOrder + 1);
    case Remove(id) =>
    case Choose(id) => ChosenBase(v, id);
    case Reschedule(id, length) =>
      var c := v.items[id].(lastWrite := length);
      ChargedInWindow(c, v.base, v.base);
      WithOrder(VNextCycle(c, v.base), v.nextOrder, v.base);
      WithChild(v, id, VNextCycle(c, v.base).(order := v.nextOrder), v.nextOrder + 1);
    case ChangeWeight(id, weight) =>
      if v.items[id].weight != weight {
        ReweighInWindow(v.items[id], weight, v.base);
        WithChild(v, id, VReweigh(v.items[id], weight, v.base), v.nextOrder);
      }
    case ResetBase =>
  }

  lemma WithOrder(c: Child, order: nat, base: int)
    requires ValidChild(c) && InWindow(c, base)
    ensures ValidChild(c.(order := order)) && InWindow(c.(order := order), base)
  {
    var d := c.(order := order);
    assert OldPenalty(d) == OldPenalty(c) && Charge(d, OldPenalty(d)) == Charge(c, OldPenalty(c));
  }

  // ---- the wrapping machine follows the unbounded one ----------------------

  lemma WrapShift(x: int, k: int)
    ensures Wrap(x - CYCLE_WRAP * k) == Wrap(x)
  {
    Quotient(x - CYCLE_WRAP * k, CYCLE_WRAP, x / CYCLE_WRAP - k, x % CYCLE_WRAP);
  }

  lemma WrapSum(x: int, y: int)
    ensures Wrap(Wrap(x) + y) == Wrap(x + y)
    ensures Wrap(y - Wrap(x)) == Wrap(y - x)
  {
    var k := x / CYCLE_WRAP;
    assert Wrap(x) == x - CYCLE_WRAP * k;
    WrapShift(x + y, k);
    WrapShift(y - x, -k);
  }

  /** Within the window the wrapped difference is the difference, and a negative one is out of range. */
  lemma WrapDistance(x: int, y: int)
    requires -MAX_DISTANCE <= y - x <= MAX_DISTANCE
    ensures Wrap(Wrap(y) - Wrap(x)) <= MAX_DISTANCE <==> x <= y
    ensures Wrap(x) == Wrap(y) <==> x == y
  {
    WrapSum(x, Wrap(y));
    WrapSum(y, -x);
  }

  /** stream_less on wrapped cycles is the order of the unbounded virtual times. */
  lemma LessAgrees(a: Child, va: Child, b: Child, vb: Child)
    requires Matches(a, va) && Matches(b, vb)
    requires -MAX_DISTANCE <= vb.cycle - va.cycle <= MAX_DISTANCE
    ensures Less(a, b) <==> VLess(va, vb)
  {
    WrapDistance(va.cycle, vb.cycle);
  }

  lemma OrderAgrees(q: Queue, v: Queue, i: Id, j: Id)
    requires Related(q, v) && VInvariant(v) && i in q.items && j in q.items
    ensures Less(q.items[i], q.items[j]) <==> VLess(v.items[i], v.items[j])
  {
    assert InWindow(v.items[i], v.base) && InWindow(v.items[j], v.base);
    WindowBounds(v.items[i], v.base);
    WindowBounds(v.items[j], v.base);
    LessAgrees(q.items[i], v.items[i], q.items[j], v.items[j]);
  }

  lemma ReweighAgrees(c: Child, vc: Child, weight: nat, base: int)
    requires Matches(c, vc) && ValidChild(vc) && InWindow(vc, base) && 1 <= weight <= MAX_WEIGHT
    ensures Matches(Reweigh(c, weight, Wrap(base)), VReweigh(vc, weight, base))
  {
    hide Wrap, WithinMaximum, OldPenalty, Charge, Leftover, InWindow;
    SameCharges(c, vc.cycle, weight);
    RechargeRange(vc, weight, base);
    var carried := OldPenalty(c);
    var vd := vc.(weight := weight, penalty := carried);
    RechargeAgrees(vc.cycle, Charge(vc, carried), Charge(vd, carried), base);
  }

  /** What is charged does not depend on the cycle. */
  lemma SameCharges(c: Child, cycle: int, weight: nat)
    requires c.weight > 0 && weight > 0
    ensures var vc, carried := c.(cycle := cycle), OldPenalty(c);
            var d, vd := c.(weight := weight, penalty := carried), vc.(weight := weight, penalty := carried);
            && OldPenalty(vc) == carried && Charge(vc, carried) == Charge(c, carried)
            && Charge(vd, carried) == Charge(d, carried) && Leftover(vd, carried) == Leftover(d, carried)
  {
  }

  lemma RechargeRange(c: Child, weight: nat, base: int)
    requires ValidChild(c) && InWindow(c, base) && 1 <= weight <= MAX_WEIGHT
    ensures var carried := OldPenalty(c);
            var d := c.(weight := weight, penalty := carried);
            base - MAX_DISTANCE <= c.cycle - Charge(c, carried) + Charge(d, carried) <= base + MAX_DISTANCE
  {
    var carried := OldPenalty(c);
    ChargeBound(Written(c) + carried, c.weight);
    ChargeBound(Written(c) + carried, weight);
  }

  /** Taking one charge back and adding another, with the clamp to the base. */
  lemma RechargeAgrees(cycle: int, charge: int, more: int, base: int)
    requires base - MAX_DISTANCE <= cycle - charge + more <= base + MAX_DISTANCE
    ensures var x := Wrap(Wrap(Wrap(cycle) - charge) + more);
            && x == Wrap(cycle - charge + more)
            && (WithinMaximum(Wrap(base), x) <==> cycle - charge + more <= base)
  {
    WrapSum(cycle, -charge);
    WrapSum(cycle - charge, more);
    WrapDistance(cycle - charge + more, base);
  }

  /** The test of nghttp2_stream_change_weight. */
  predicate WithinMaximum(base: int, cycle: int) { Wrap(base - cycle) <= MAX_DISTANCE }

  lemma ChargeAgrees(c: Child, last: int)
    requires c.weight > 0
    ensures Matches(NextCycle(c, Wrap(last)), VNextCycle(c, last))
  {
    WrapSum(last, Charge(c, c.penalty));
  }

  lemma TopAgrees(q: Queue, v: Queue, id: Id)
    requires Related(q, v) && VInvariant(v)
    ensures IsTop(q, id) <==> VIsTop(v, id)
  {
    hide Less, VLess, InWindow, Matches;
    if id in q.items {
      forall j | j in q.items ensures Less(q.items[j], q.items[id]) <==> VLess(v.items[j], v.items[id]) {
        OrderAgrees(q, v, j, id);
      }
    }
  }

  lemma RelatedWellFormed(q: Queue, v: Queue)
    requires Related(q, v) && WellFormed(v)
    ensures WellFormed(q)
  {
    forall j | j in q.items
      ensures ValidChild(q.items[j]) && q.items[j].order == v.items[j].order
    {
      assert Matches(q.items[j], v.items[j]);
    }
  }

  lemma RelatedUpdate(q: Queue, v: Queue, id: Id, c: Child, vc: Child, nextOrder: nat)
    requires Related(q, v) && Matches(c, vc)
    ensures Related(Queue(q.base, nextOrder, q.items[id := c]), Queue(v.base, nextOrder, v.items[id := vc]))
  {
    hide Matches, Wrap;
  }

  lemma PushAgrees(q: Queue, v: Queue, id: Id, c: Child)
    requires Related(q, v) && WellFormed(q) && WellFormed(v)
    requires ValidChild(c) && id !in q.items
    ensures Related(Apply(q, Push(id, c)), VApply(v, Push(id, c)))
  {
    hide Related, WellFormed;
    RelatedBase(q, v);
    ChargeAgrees(c, v.base);
    RelatedUpdate(q, v, id, NextCycle(c, q.base).(order := q.nextOrder),
                  VNextCycle(c, v.base).(order := v.nextOrder), q.nextOrder + 1);
  }

  lemma RelatedBase(q: Queue, v: Queue)
    requires Related(q, v)
    ensures q.base == Wrap(v.base) && q.nextOrder == v.nextOrder && q.items.Keys == v.items.Keys
    ensures forall j :: j in q.items ==> j in v.items && Matches(q.items[j], v.items[j])
  {
  }

  lemma RescheduleAgrees(q: Queue, v: Queue, id: Id, length: nat)
    requires Related(q, v) && WellFormed(q) && WellFormed(v)
    requires id in q.items && length <= MAX_FRAME_SIZE
    ensures Related(Apply(q, Reschedule(id, length)), VApply(v, Reschedule(id, length)))
  {
    RelatedBase(q, v);
    var c, vc := q.items[id].(lastWrite := length), v.items[id].(lastWrite := length);
    assert Matches(q.items[id], v.items[id]) && ValidChild(q.items[id]);
    assert NextCycle(c, q.base) == NextCycle(vc, q.base);
    ChargeAgrees(vc, v.base);
    hide Related, WellFormed;
    RelatedUpdate(q, v, id, NextCycle(c, q.base).(order := q.nextOrder),
                  VNextCycle(vc, v.base).(order := v.nextOrder), q.nextOrder + 1);
  }

  lemma ChangeWeightAgrees(q: Queue, v: Queue, id: Id, weight: nat)
    requires Related(q, v) && WellFormed(q) && VInvariant(v)
    requires id in q.items && 1 <= weight <= MAX_WEIGHT
    ensures Related(Apply(q, ChangeWeight(id, weight)), VApply(v, ChangeWeight(id, weight)))
  {
    RelatedBase(q, v);
    var c, vc := q.items[id], v.items[id];
    assert Matches(c, vc) && ValidChild(vc) && InWindow(vc, v.base);
    ReweighAgrees(c, vc, weight, v.base);
    hide Related, VInvariant, Reweigh, VReweigh;
    RelatedUpdate(q, v, id, Reweigh(c, weight, q.base), VReweigh(vc, weight, v.base), q.nextOrder);
  }

  /** Both machines may take the same steps, and stay related. */
  lemma StepAgrees(q: Queue, v: Queue, op: Op)
    requires Related(q, v) && VInvariant(v)
    ensures WellFormed(q)
    ensures Enabled(q, op) <==> VEnabled(v, op)
    ensures Enabled(q, op) ==> Related(Apply(q, op), VApply(v, op))
  {
    RelatedWellFormed(q, v);
    RelatedBase(q, v);
    hide InWindow, Wrap, NextCycle, VNextCycle, Reweigh, VReweigh, IsTop, VIsTop;
    match op
    case Push(id, c) => if Enabled(q, op) { PushAgrees(q, v, id, c); }
    case Remove(id) =>
    case Choose(id) => TopAgrees(q, v, id);
    case Reschedule(id, length) => if Enabled(q, op) { RescheduleAgrees(q, v, id, length); }
    case ChangeWeight(id, weight) => if Enabled(q, op) { ChangeWeightAgrees(q, v, id, weight); }
    case ResetBase => if Enabled(q, op) { ResetAgrees(q, v); }
  }

  lemma ResetAgrees(q: Queue, v: Queue)
    requires Related(q, v) && q.items == map[]
    ensures v.items == map[] && Related(q.(base := 0), v.(base := 0))
  {
    Quotient(0, CYCLE_WRAP, 0, 0);
  }

  // ---- runs ----------------------------------------------------------------

  predicate Legal(q: Queue, ops: seq<Op>)
    decreases |ops|
  {
    ops == [] || (WellFormed(q) && Enabled(q, ops[0]) && Legal(Apply(q, ops[0]), ops[1..]))
  }

  function Run(q: Queue, ops: seq<Op>): Queue
    requires Legal(q, ops)
    decreases |ops|
  {
    if ops == [] then q else Run(Apply(q, ops[0]), ops[1..])
  }

  predicate VLegal(v: Queue, ops: seq<Op>)
    decreases |ops|
  {
    ops == [] || (WellFormed(v) && VEnabled(v, ops[0]) && VLegal(VApply(v, ops[0]), ops[1..]))
  }

  function VRun(v: Queue, ops: seq<Op>): Queue
    requires VLegal(v, ops)
    decreases |ops|
  {
    if ops == [] then v else VRun(VApply(v, ops[0]), ops[1..])
  }

  /**
   * Over every run the 64-bit machine makes exactly the choices of the machine whose virtual times never
   * wrap.
   */
  lemma {:induction false} RunsAgree(q: Queue, v: Queue, ops: seq<Op>)
    requires Related(q, v) && VInvariant(v)
    ensures Legal(q, ops) <==> VLegal(v, ops)
    ensures Legal(q, ops) ==> Related(Run(q, ops), VRun(v, ops)) && VInvariant(VRun(v, ops))
    decreases |ops|
  {
    hide Related, VInvariant, Possible, IsTop, VEnabled, Apply, VApply;
    if ops != [] {
      StepAgrees(q, v, ops[0]);
      VInvariantWellFormed(v);
      if Enabled(q, ops[0]) {
        InvariantStep(v, ops[0]);
        RunsAgree(Apply(q, ops[0]), VApply(v, ops[0]), ops[1..]);
      }
    }
  }

  /** A run may be taken one step further. */
  lemma {:induction false} RunFurther(q: Queue, ops: seq<Op>, op: Op)
    requires Legal(q, ops) && WellFormed(Run(q, ops)) && Enabled(Run(q, ops), op)
    ensures Legal(q, ops + [op]) && Run(q, ops + [op]) == Apply(Run(q, ops), op)
    decreases |ops|
  {
    hide Apply, Possible, IsTop, WellFormed;
    if ops == [] {
      assert ops + [op] == [op] && [op][1..] == [];
      OneStep(q, op);
    } else {
      assert (ops + [op])[1..] == ops[1..] + [op];
      RunFurther(Apply(q, ops[0]), ops[1..], op);
    }
  }

  lemma OneStep(q: Queue, op: Op)
    requires WellFormed(q) && Enabled(q, op)
    ensures Legal(q, [op]) && Run(q, [op]) == Apply(q, op)
  {
    assert [op][1..] == [];
  }

  /** The base and the cycles fit in 64 bits. */
  predicate Wrapped(q: Queue)
  {
    0 <= q.base < CYCLE_WRAP && forall j :: j in q.items ==> 0 <= q.items[j].cycle < CYCLE_WRAP
  }

  lemma ApplyWellFormed(q: Queue, op: Op)
    requires WellFormed(q) && Wrapped(q) && Possible(q, op)
    ensures WellFormed(Apply(q, op)) && Wrapped(Apply(q, op))
  {
    match op
    case ChangeWeight(id, weight) => ReweighValid(q.items[id], weight, q.base);
    case _ =>
  }

  lemma ReweighValid(c: Child, weight: nat, base: int)
    requires ValidChild(c) && 1 <= weight <= MAX_WEIGHT && 0 <= base < CYCLE_WRAP
    ensures var n := Reweigh(c, weight, base);
            ValidChild(n) && n.order == c.order && n.weight == weight && 0 <= n.cycle < CYCLE_WRAP
  {
  }

  lemma VInvariantWellFormed(v: Queue)
    requires VInvariant(v)
    ensures WellFormed(v)
  {
  }

  const EMPTY_QUEUE := Queue(0, 0, map[])

  /** The relation stream_less must be for the heap to deliver a least element. */
  ghost predicate StrictTotalOrder(q: Queue)
  {
    && (forall i :: i in q.items ==> !Less(q.items[i], q.items[i]))
    && (forall i, j :: i in q.items && j in q.items && i != j ==>
        (Less(q.items[i], q.items[j]) <==> !Less(q.items[j], q.items[i])))
    && (forall i, j, k ::
          i in q.items && j in q.items && k in q.items && Less(q.items[i], q.items[j]) && Less(q.items[j], q.items[k])
          ==> Less(q.items[i], q.items[k]))
  }

  /** In every reachable queue stream_less is a strict total order, however often cycles have wrapped. */
  lemma ReachableOrder(ops: seq<Op>)
    requires Legal(EMPTY_QUEUE, ops)
    ensures StrictTotalOrder(Run(EMPTY_QUEUE, ops))
  {
    var q0 := EMPTY_QUEUE;
    EmptyRelated(q0);
    RunsAgree(q0, q0, ops);
    TotalOrder(Run(q0, ops), VRun(q0, ops));
  }

  lemma EmptyRelated(q: Queue)
    requires q.items == map[] && 0 <= q.base < CYCLE_WRAP
    ensures Related(q, q) && VInvariant(q)
  {
    Quotient(q.base, CYCLE_WRAP, 0, q.base);
  }

  lemma TotalOrder(q: Queue, v: Queue)
    requires Related(q, v) && VInvariant(v)
    ensures StrictTotalOrder(q)
  {
    forall i, j | i in q.items && j in q.items ensures Near(v.items[i].cycle, v.items[j].cycle) {
      assert InWindow(v.items[i], v.base) && InWindow(v.items[j], v.base);
      WindowBounds(v.items[i], v.base);
      WindowBounds(v.items[j], v.base);
    }
    CloseOrder(q, v);
  }

  predicate Near(x: int, y: int) { -MAX_DISTANCE <= y - x <= MAX_DISTANCE }

  /** Virtual times that are pairwise near may wrap. */
  lemma CloseOrder(q: Queue, v: Queue)
    requires q.items.Keys == v.items.Keys && forall j :: j in q.items ==> Matches(q.items[j], v.items[j])
    requires forall i, j :: i in q.items && j in q.items ==> Near(v.items[i].cycle, v.items[j].cycle)
    requires forall i, j :: i in q.items && j in q.items && q.items[i].order == q.items[j].order ==> i == j
    ensures StrictTotalOrder(q)
  {
    forall i, j | i in q.items && j in q.items
      ensures Less(q.items[i], q.items[j]) <==> VLess(v.items[i], v.items[j])
      ensures v.items[i].order == v.items[j].order ==> i == j
    {
      assert Near(v.items[i].cycle, v.items[j].cycle);
      LessAgrees(q.items[i], v.items[i], q.items[j], v.items[j]);
      assert Matches(q.items[i], v.items[i]) && Matches(q.items[j], v.items[j]);
    }
    hide Less, Matches, Near;
  }

  // ---- moving a stream with queued children ---------------------------------

  /**
   * nghttp2_stream_dep_remove_subtree of a queued stream also resets the base of that stream's own queue,
   * which need not be empty then.
   */
  function Moved(q: Queue): Queue { q.(base := 0) }

  /** If the next thing that happens to the queue is a choice, nothing is lost. */
  lemma MovedThenChosen(q: Queue, v: Queue, id: Id)
    requires Related(q, v) && VInvariant(v) && WellFormed(q) && IsTop(Moved(q), id)
    ensures VIsTop(v, id) && VInvariant(VApply(v, Choose(id)))
    ensures Related(Apply(Moved(q), Choose(id)), VApply(v, Choose(id)))
  {
    assert IsTop(q, id);
    StepAgrees(q, v, Choose(id));
    InvariantStep(v, Choose(id));
    assert Apply(Moved(q), Choose(id)) == Apply(q, Choose(id));
  }

  /** Two cycles are near in one direction or the other, around the wrap. */
  predicate WrappedNear(x: int, y: int) { Wrap(y - x) <= MAX_DISTANCE || Wrap(x - y) <= MAX_DISTANCE }

  /** The virtual time near `y` that a cycle near `Wrap(y)` stands for. */
  function Lift(x: int, y: int): int
  {
    if Wrap(y - x) <= MAX_DISTANCE then y - Wrap(y - x) else y + Wrap(x - y)
  }

  lemma LiftNear(x: int, y: int)
    requires 0 <= x < CYCLE_WRAP && WrappedNear(x, Wrap(y))
    ensures Wrap(Lift(x, y)) == x && Near(Lift(x, y), y)
  {
    WrapSum(y, -x);
    WrapSum(y, x);
    Quotient(x, CYCLE_WRAP, 0, x);
    WrapShift(x, -((y - x) / CYCLE_WRAP));
    WrapShift(x, (x - y) / CYCLE_WRAP);
  }

  /** Around one item there is only one such virtual time, and it is near the others too. */
  lemma LiftSame(x: int, y: int, z: int)
    requires 0 <= x < CYCLE_WRAP && WrappedNear(x, Wrap(y)) && WrappedNear(x, Wrap(z)) && Near(y, z)
    ensures Near(Lift(x, y), z)
  {
    LiftNear(x, y);
    LiftNear(x, z);
    var a, b := Lift(x, y), Lift(x, z);
    assert a == CYCLE_WRAP * (a / CYCLE_WRAP) + x && b == CYCLE_WRAP * (b / CYCLE_WRAP) + x;
    var k := a / CYCLE_WRAP - b / CYCLE_WRAP;
    assert a - b == CYCLE_WRAP * k;
  }

  lemma OrderedNear(q: Queue, i: Id, j: Id)
    requires StrictTotalOrder(q) && i in q.items && j in q.items && i != j
    ensures WrappedNear(q.items[i].cycle, q.items[j].cycle)
  {
    Quotient(0, CYCLE_WRAP, 0, 0);
    assert Less(q.items[i], q.items[j]) || Less(q.items[j], q.items[i]);
  }

  ghost predicate PairwiseNear(q: Queue)
  {
    forall i, j :: i in q.items && j in q.items && i != j ==> WrappedNear(q.items[i].cycle, q.items[j].cycle)
  }

  lemma SelfNear(x: int)
    ensures WrappedNear(x, x)
  {
    Quotient(0, CYCLE_WRAP, 0, 0);
  }

  /** Cycles that are pairwise near stand for virtual times that are pairwise near. */
  lemma NearOrder(q: Queue)
    requires WellFormed(q) && Wrapped(q) && PairwiseNear(q)
    ensures StrictTotalOrder(q)
  {
    if q.items != map[] {
      var k :| k in q.items;
      var y := q.items[k].cycle;
      Quotient(y, CYCLE_WRAP, 0, y);
      var v := q.(items := map j | j in q.items :: q.items[j].(cycle := Lift(q.items[j].cycle, y)));
      forall j | j in q.items ensures WrappedNear(q.items[j].cycle, y) { SelfNear(y); }
      hide WrappedNear, Lift, Less;
      forall j | j in q.items ensures Matches(q.items[j], v.items[j]) { LiftNear(q.items[j].cycle, y); }
      forall i, j | i in q.items && j in q.items ensures Near(v.items[i].cycle, v.items[j].cycle) {
        LiftBoth(q.items[i].cycle, q.items[j].cycle, y);
      }
      CloseOrder(q, v);
    }
  }

  lemma LiftBoth(x: int, z: int, y: int)
    requires 0 <= x < CYCLE_WRAP && 0 <= z < CYCLE_WRAP && 0 <= y < CYCLE_WRAP
    requires WrappedNear(x, y) && WrappedNear(z, y) && (x != z ==> WrappedNear(x, z))
    ensures Near(Lift(x, y), Lift(z, y))
  {
    Quotient(y, CYCLE_WRAP, 0, y);
    LiftNear(z, y);
    if x != z { LiftSame(x, y, Lift(z, y)); }
  }

  /** stream_less is a strict total order exactly if the cycles are pairwise within the distance, around the wrap. */
  lemma OrderIff(q: Queue)
    requires WellFormed(q) && Wrapped(q)
    ensures StrictTotalOrder(q) <==> PairwiseNear(q)
  {
    hide StrictTotalOrder, WrappedNear;
    if StrictTotalOrder(q) {
      forall i, j | i in q.items && j in q.items && i != j
        ensures WrappedNear(q.items[i].cycle, q.items[j].cycle)
      {
        OrderedNear(q, i, j);
      }
    }
    if PairwiseNear(q) { NearOrder(q); }
  }

  /** The cycle that a step gives to one stream. */
  function NewCycle(q: Queue, op: Op): int
    requires WellFormed(q) && Possible(q, op) && (op.Push? || op.Reschedule? || op.ChangeWeight?)
  {
    match op
    case Push(_, c) => Wrap(q.base + Charge(c, c.penalty))
    case Reschedule(id, length) =>
      var c := q.items[id].(lastWrite := length);
      Wrap(q.base + Charge(c, c.penalty))
    case ChangeWeight(id, weight) =>
      if q.items[id].weight == weight then q.items[id].cycle else Reweigh(q.items[id], weight, q.base).cycle
  }

  /** That cycle is near those of all other streams; the other steps change no cycle. */
  ghost predicate StepNear(q: Queue, op: Op)
    requires WellFormed(q) && Possible(q, op)
  {
    op.Push? || op.Reschedule? || op.ChangeWeight? ==>
      forall j :: j in q.items && j != op.id ==> WrappedNear(NewCycle(q, op), q.items[j].cycle)
  }

  lemma ChangedItem(q: Queue, op: Op)
    requires WellFormed(q) && Possible(q, op)
    ensures var r := Apply(q, op);
            if op.Push? || op.Reschedule? || op.ChangeWeight? then
              && op.id in r.items && r.items[op.id].cycle == NewCycle(q, op)
              && r.items == q.items[op.id := r.items[op.id]]
            else r.items.Keys <= q.items.Keys && forall j :: j in r.items ==> r.items[j] == q.items[j]
  {
    hide Wrap, Charge, Reweigh;
    if op.ChangeWeight? && q.items[op.id].weight == op.weight {
      assert q.items == q.items[op.id := q.items[op.id]];
    }
  }

  /** In an ordered queue, whatever its base, one more step keeps the order exactly if the new cycle is near. */
  lemma StepOrder(q: Queue, op: Op)
    requires WellFormed(q) && Wrapped(q) && StrictTotalOrder(q) && Possible(q, op)
    ensures StrictTotalOrder(Apply(q, op)) <==> StepNear(q, op)
  {
    hide StrictTotalOrder, WrappedNear, Apply, NewCycle, WellFormed, Wrapped, Possible;
    ApplyWellFormed(q, op);
    OrderIff(q);
    OrderIff(Apply(q, op));
    ChangedItem(q, op);
    NearSwap();
    var r := Apply(q, op);
    if op.Push? || op.Reschedule? || op.ChangeWeight? {
      if PairwiseNear(r) {
        forall j | j in q.items && j != op.id ensures WrappedNear(NewCycle(q, op), q.items[j].cycle) {
          assert r.items[j] == q.items[j] && j in r.items;
        }
      }
    }
  }

  lemma NearSwap()
    ensures forall x, y :: WrappedNear(x, y) <==> WrappedNear(y, x)
  {
  }

  // ---- whole runs, whatever the base --------------------------------------------------

  predicate Follows(q: Queue, ops: seq<Op>)
    decreases |ops|
  {
    ops == [] || (WellFormed(q) && Possible(q, ops[0]) && Follows(Apply(q, ops[0]), ops[1..]))
  }

  /** stream_less is a strict total order after every step. */
  ghost predicate OrderedThroughout(q: Queue, ops: seq<Op>)
    requires Follows(q, ops)
    decreases |ops|
  {
    StrictTotalOrder(q) && (ops == [] || OrderedThroughout(Apply(q, ops[0]), ops[1..]))
  }

  ghost predicate NearThroughout(q: Queue, ops: seq<Op>)
    requires Follows(q, ops)
    decreases |ops|
  {
    ops == [] || (StepNear(q, ops[0]) && NearThroughout(Apply(q, ops[0]), ops[1..]))
  }

  lemma {:induction false} ThroughoutIff(q: Queue, ops: seq<Op>)
    requires WellFormed(q) && Wrapped(q) && StrictTotalOrder(q) && Follows(q, ops)
    ensures OrderedThroughout(q, ops) <==> NearThroughout(q, ops)
    decreases |ops|
  {
    hide StrictTotalOrder, WellFormed, Wrapped, Possible, Apply, StepNear;
    if ops != [] {
      StepOrder(q, ops[0]);
      ApplyWellFormed(q, ops[0]);
      if StepNear(q, ops[0]) {
        ThroughoutIff(Apply(q, ops[0]), ops[1..]);
      } else {
        NotOrdered(Apply(q, ops[0]), ops[1..]);
      }
    }
  }

  lemma NotOrdered(q: Queue, ops: seq<Op>)
    requires !StrictTotalOrder(q) && Follows(q, ops)
    ensures !OrderedThroughout(q, ops)
  {
  }

  lemma ReachableWrapped(ops: seq<Op>)
    requires Legal(EMPTY_QUEUE, ops)
    ensures WellFormed(Run(EMPTY_QUEUE, ops)) && Wrapped(Run(EMPTY_QUEUE, ops))
  {
    RunWrapped(EMPTY_QUEUE, ops);
  }

  lemma {:induction false} RunWrapped(q: Queue, ops: seq<Op>)
    requires Legal(q, ops) && WellFormed(q) && Wrapped(q)
    ensures WellFormed(Run(q, ops)) && Wrapped(Run(q, ops))
    decreases |ops|
  {
    hide WellFormed, Wrapped, Possible, IsTop, Apply;
    if ops != [] {
      ApplyWellFormed(q, ops[0]);
      RunWrapped(Apply(q, ops[0]), ops[1..]);
    }
  }

  /**
   * After the move of a stream, whatever happens to its queue, whichever way it was reached: it stays ordered exactly
   * as long as each step gives its stream a cycle that is near all others.
   */
  lemma MovedOrder(ops: seq<Op>, next: seq<Op>)
    requires Legal(EMPTY_QUEUE, ops) && Follows(Moved(Run(EMPTY_QUEUE, ops)), next)
    ensures var q := Moved(Run(EMPTY_QUEUE, ops)); OrderedThroughout(q, next) <==> NearThroughout(q, next)
  {
    hide Legal, Run, Follows, OrderedThroughout, NearThroughout;
    ReachableOrder(ops);
    ReachableWrapped(ops);
    ThroughoutIff(Moved(Run(EMPTY_QUEUE, ops)), next);
  }

  /**
   * A stream that joins such a queue, with what it has written and its penalty, is ordered against all the streams
   * in it exactly if its charge is near every cycle there.
   */
  lemma JoinOrder(q: Queue, id: Id, c: Child)
    requires WellFormed(q) && Wrapped(q) && StrictTotalOrder(q) && id !in q.items && ValidChild(c)
    ensures StrictTotalOrder(Apply(Moved(q), Push(id, c))) <==>
            forall j :: j in q.items ==> WrappedNear(Wrap(Charge(c, c.penalty)), q.items[j].cycle)
  {
    hide WrappedNear, Charge, Less;
    StepOrder(Moved(q), Push(id, c));
  }

  function Pushes(joins: seq<(Id, Child)>): seq<Op>
  {
    seq(|joins|, k requires 0 <= k < |joins| => Push(joins[k].0, joins[k].1))
  }

  /** The charge of every joining stream is near every cycle of `q`. */
  ghost predicate JoinsNear(q: Queue, joins: seq<(Id, Child)>)
    requires forall k :: 0 <= k < |joins| ==> ValidChild(joins[k].1)
  {
    forall k, j :: 0 <= k < |joins| && j in q.items ==>
      assert ValidChild(joins[k].1);
      WrappedNear(Wrap(Charge(joins[k].1, joins[k].1.penalty)), q.items[j].cycle)
  }

  /** Streams that join one after the other, as all the children of a stream do, do not get in each other's way. */
  lemma JoinsOrder(q: Queue, joins: seq<(Id, Child)>)
    requires WellFormed(q) && Wrapped(q) && StrictTotalOrder(q) && Follows(Moved(q), Pushes(joins))
    requires forall k :: 0 <= k < |joins| ==> ValidChild(joins[k].1)
    ensures OrderedThroughout(Moved(q), Pushes(joins)) <==> JoinsNear(q, joins)
  {
    hide StrictTotalOrder, WellFormed, Wrapped, OrderedThroughout, NearThroughout, Follows, JoinsNear;
    assert WellFormed(Moved(q)) && Wrapped(Moved(q)) && StrictTotalOrder(Moved(q)) by { MovedSame(q); }
    ThroughoutIff(Moved(q), Pushes(joins));
    JoinsSteps(q, Moved(q), joins);
  }

  lemma MovedSame(q: Queue)
    requires WellFormed(q) && Wrapped(q) && StrictTotalOrder(q)
    ensures WellFormed(Moved(q)) && Wrapped(Moved(q)) && StrictTotalOrder(Moved(q))
  {
  }

  /** `r` is `q` with streams that have joined at base 0. */
  ghost predicate Joined(q: Queue, r: Queue)
  {
    && r.base == 0 && q.items.Keys <= r.items.Keys
    && forall j :: j in r.items ==>
         if j in q.items then r.items[j].cycle == q.items[j].cycle else 0 <= r.items[j].cycle <= MAX_DISTANCE
  }

  lemma ChargeRange(c: Child)
    requires ValidChild(c)
    ensures 0 <= Charge(c, c.penalty) <= MAX_DISTANCE && Wrap(Charge(c, c.penalty)) == Charge(c, c.penalty)
  {
    ChargeBound(Written(c) + c.penalty, c.weight);
    Quotient(Charge(c, c.penalty), CYCLE_WRAP, 0, Charge(c, c.penalty));
  }

  lemma SmallNear(x: int, y: int)
    requires 0 <= x <= MAX_DISTANCE && 0 <= y <= MAX_DISTANCE
    ensures WrappedNear(x, y)
  {
    if x <= y { Quotient(y - x, CYCLE_WRAP, 0, y - x); } else { Quotient(x - y, CYCLE_WRAP, 0, x - y); }
  }

  /** One join. */
  lemma JoinStep(q: Queue, r: Queue, id: Id, c: Child)
    requires WellFormed(r) && Joined(q, r) && Possible(r, Push(id, c))
    ensures StepNear(r, Push(id, c)) <==>
            forall j :: j in q.items ==> WrappedNear(Wrap(Charge(c, c.penalty)), q.items[j].cycle)
    ensures Joined(q, Apply(r, Push(id, c)))
  {
    ChargeRange(c);
    hide WrappedNear, Charge;
    forall j | j in r.items && j !in q.items
      ensures WrappedNear(Wrap(Charge(c, c.penalty)), r.items[j].cycle)
    {
      SmallNear(Charge(c, c.penalty), r.items[j].cycle);
    }
  }

  lemma {:induction false} JoinsSteps(q: Queue, r: Queue, joins: seq<(Id, Child)>)
    requires WellFormed(r) && Wrapped(r) && Joined(q, r) && Follows(r, Pushes(joins))
    requires forall k :: 0 <= k < |joins| ==> ValidChild(joins[k].1)
    ensures NearThroughout(r, Pushes(joins)) <==> JoinsNear(q, joins)
    decreases |joins|
  {
    hide WrappedNear, Charge, WellFormed, Wrapped, Joined, StepNear, Apply;
    if joins != [] {
      var id, c := joins[0].0, joins[0].1;
      assert Pushes(joins)[0] == Push(id, c) && Pushes(joins)[1..] == Pushes(joins[1..]);
      JoinStep(q, r, id, c);
      ApplyWellFormed(r, Push(id, c));
      JoinsSteps(q, Apply(r, Push(id, c)), joins[1..]);
      JoinsSplit(q, joins);
    }
  }

  lemma JoinsSplit(q: Queue, joins: seq<(Id, Child)>)
    requires joins != [] && forall k :: 0 <= k < |joins| ==> ValidChild(joins[k].1)
    ensures JoinsNear(q, joins) <==>
            && (forall j :: j in q.items ==>
                  WrappedNear(Wrap(Charge(joins[0].1, joins[0].1.penalty)), q.items[j].cycle))
            && JoinsNear(q, joins[1..])
  {
    hide WrappedNear, Charge;
    assert forall k :: 1 <= k < |joins| ==> joins[k] == joins[1..][k - 1];
  }

  /** One step of a concrete run. */
  lemma RunFrom(q: Queue, ops: seq<Op>, i: nat, r: Queue)
    requires i < |ops| && WellFormed(q) && Enabled(q, ops[i]) && Apply(q, ops[i]) == r && Legal(r, ops[i + 1..])
    ensures Legal(q, ops[i..]) && Run(q, ops[i..]) == Run(r, ops[i + 1..])
  {
    assert ops[i..][1..] == ops[i + 1..];
  }

  const TWO_CYCLES := 2 * (MAX_FRAME_SIZE * 256)

  const LONE_RUN := [Push(1, HEAVY), Choose(1), Reschedule(1, MAX_FRAME_SIZE)]

  lemma LoneRuns() returns (q: Queue)
    ensures Legal(EMPTY_QUEUE, LONE_RUN) && Run(EMPTY_QUEUE, LONE_RUN) == q
    ensures q == Queue(MAX_FRAME_SIZE * 256, 2, map[1 := Charged(2, 1)])
  {
    HeavyCharge();
    hide NextCycle, Legal, Run;
    var q1 := Queue(0, 1, map[1 := Charged(1, 0)]);
    var q2 := q1.(base := MAX_FRAME_SIZE * 256);
    q := Queue(MAX_FRAME_SIZE * 256, 2, map[1 := Charged(2, 1)]);
    var ops := LONE_RUN;
    assert ops[3..] == [] && ops[0..] == ops;
    RunNothing(q);
    RunFrom(q2, ops, 2, q);
    RunFrom(q1, ops, 1, q2);
    RunFrom(EMPTY_QUEUE, ops, 0, q1);
  }

  /** Three steps lead to a queue whose move leaves two siblings without an order, once one has joined. */
  lemma MovedLosesOrder()
    ensures Legal(EMPTY_QUEUE, LONE_RUN)
    ensures var q := Run(EMPTY_QUEUE, LONE_RUN);
            && WellFormed(q) && 3 !in q.items
            && !StrictTotalOrder(Apply(Moved(q), Push(3, Child(16, 0, 0, 0, 0))))
  {
    hide Legal, Run, StrictTotalOrder, WellFormed, Wrapped, Apply, WrappedNear;
    var q := LoneRuns();
    ReachableOrder(LONE_RUN);
    ReachableWrapped(LONE_RUN);
    Quotient(0, 16, 0, 0);
    FarApart(0);
    assert 1 in q.items && q.items[1].cycle == TWO_CYCLES;
    JoinOrder(q, 3, Child(16, 0, 0, 0, 0));
  }

  lemma RunNothing(q: Queue)
    ensures Legal(q, []) && Run(q, []) == q
  {
  }

  lemma FarApart(x: int)
    requires 0 <= x <= MAX_FRAME_SIZE
    ensures Wrap(x) == x && !WrappedNear(x, TWO_CYCLES)
  {
    Quotient(x, CYCLE_WRAP, 0, x);
    Quotient(TWO_CYCLES - x, CYCLE_WRAP, 0, TWO_CYCLES - x);
    Quotient(x - TWO_CYCLES, CYCLE_WRAP, -1, CYCLE_WRAP + x - TWO_CYCLES);
  }

  const HEAVY := Child(1, MAX_FRAME_SIZE, 0, 0, 0)

  const REWEIGH_RUN := [Push(1, HEAVY), Push(2, HEAVY), Choose(1), Reschedule(1, MAX_FRAME_SIZE)]

  function Charged(cycles: nat, order: nat): Child { HEAVY.(cycle := cycles * (MAX_FRAME_SIZE * 256), order := order) }

  function ReweighStates(): seq<Queue>
  {
    var x := MAX_FRAME_SIZE * 256;
    [EMPTY_QUEUE,
     Queue(0, 1, map[1 := Charged(1, 0)]),
     Queue(0, 2, map[1 := Charged(1, 0), 2 := Charged(1, 1)]),
     Queue(x, 2, map[1 := Charged(1, 0), 2 := Charged(1, 1)]),
     Queue(x, 3, map[1 := Charged(2, 2), 2 := Charged(1, 1)])]
  }

  lemma HeavyCharge()
    ensures NextCycle(HEAVY, 0) == Charged(1, 0)
    ensures NextCycle(Charged(1, 0), MAX_FRAME_SIZE * 256) == Charged(2, 0)
  {
    var x := MAX_FRAME_SIZE * 256;
    Quotient(x, 1, x, 0);
    Quotient(x, CYCLE_WRAP, 0, x);
    Quotient(x + x, CYCLE_WRAP, 0, x + x);
  }

  lemma ReweighPushes()
    ensures var s := ReweighStates();
            && WellFormed(s[0]) && Enabled(s[0], REWEIGH_RUN[0]) && Apply(s[0], REWEIGH_RUN[0]) == s[1]
            && WellFormed(s[1]) && Enabled(s[1], REWEIGH_RUN[1]) && Apply(s[1], REWEIGH_RUN[1]) == s[2]
  {
    HeavyCharge();
    hide NextCycle;
  }

  lemma ReweighChoice()
    ensures var s := ReweighStates();
            && WellFormed(s[2]) && Enabled(s[2], REWEIGH_RUN[2]) && Apply(s[2], REWEIGH_RUN[2]) == s[3]
            && WellFormed(s[3]) && Enabled(s[3], REWEIGH_RUN[3]) && Apply(s[3], REWEIGH_RUN[3]) == s[4]
  {
    HeavyCharge();
    hide NextCycle;
  }

  /** A weight change of a child already there, with nobody joining, can do the same. */
  lemma ReweighLosesOrder()
    ensures Legal(EMPTY_QUEUE, REWEIGH_RUN)
    ensures var q := Run(EMPTY_QUEUE, REWEIGH_RUN);
            && WellFormed(q) && Possible(Moved(q), ChangeWeight(2, 256))
            && !StrictTotalOrder(Apply(Moved(q), ChangeWeight(2, 256)))
  {
    hide Apply, Legal, Run, StrictTotalOrder, WellFormed, Wrapped, Possible, ReweighStates;
    ReweighRuns();
    ReachableOrder(REWEIGH_RUN);
    ReachableWrapped(REWEIGH_RUN);
    ReweighFails(Run(EMPTY_QUEUE, REWEIGH_RUN));
  }

  lemma ReweighRuns()
    ensures Legal(EMPTY_QUEUE, REWEIGH_RUN) && Run(EMPTY_QUEUE, REWEIGH_RUN) == ReweighStates()[4]
  {
    hide Apply, Legal, Run, Enabled, WellFormed;
    var s, ops := ReweighStates(), REWEIGH_RUN;
    ReweighPushes();
    ReweighChoice();
    assert ops[4..] == [] && ops[0..] == ops;
    RunNothing(s[4]);
    RunFrom(s[3], ops, 3, s[4]);
    RunFrom(s[2], ops, 2, s[3]);
    RunFrom(s[1], ops, 1, s[2]);
    RunFrom(s[0], ops, 0, s[1]);
  }

  lemma ReweighFails(q: Queue)
    requires q == ReweighStates()[4] && WellFormed(q) && Wrapped(q) && StrictTotalOrder(q)
    ensures Possible(Moved(q), ChangeWeight(2, 256))
    ensures !StrictTotalOrder(Apply(Moved(q), ChangeWeight(2, 256)))
  {
    hide Apply, Reweigh, WrappedNear, StrictTotalOrder, Wrapped;
    ReweighedFar(Charged(1, 1));
    MovedSame(q);
    StepOrder(Moved(q), ChangeWeight(2, 256));
    assert 1 in Moved(q).items && Moved(q).items[1].cycle == TWO_CYCLES;
  }

  lemma ReweighedFar(c: Child)
    requires c == Child(1, MAX_FRAME_SIZE, 0, MAX_FRAME_SIZE * 256, 1)
    ensures !WrappedNear(Reweigh(c, 256, 0).cycle, TWO_CYCLES)
  {
    var x := MAX_FRAME_SIZE * 256;
    Quotient(x, 1, x, 0);
    Quotient(1, 1, 1, 0);
    Quotient(0, CYCLE_WRAP, 0, 0);
    Quotient(x, 256, MAX_FRAME_SIZE, 0);
    FarApart(MAX_FRAME_SIZE);
    Quotient(-MAX_FRAME_SIZE, CYCLE_WRAP, -1, CYCLE_WRAP - MAX_FRAME_SIZE);
  }

  // ---- the 64-bit sequence number -------------------------------------------------------

  /** The sequence number as the source stores it. */
  function Narrow(c: Child): Child { c.(order := c.order % CYCLE_WRAP) }

  /** Siblings are told apart as by unbounded numbers exactly if their cycles differ or the counter has not wrapped. */
  lemma SeqWrapIff(a: Child, b: Child)
    requires a.order < b.order < a.order + CYCLE_WRAP
    ensures (Less(Narrow(a), Narrow(b)) == Less(a, b) && Less(Narrow(b), Narrow(a)) == Less(b, a)) <==>
            a.cycle != b.cycle || a.order / CYCLE_WRAP == b.order / CYCLE_WRAP
  {
    hide Wrap;
    var x, y := a.order, b.order;
    assert x == CYCLE_WRAP * (x / CYCLE_WRAP) + x % CYCLE_WRAP;
    assert y == CYCLE_WRAP * (y / CYCLE_WRAP) + y % CYCLE_WRAP;
  }

  /** In a run of fewer than 2^64 steps it does not wrap. */
  lemma {:induction false} SeqFits(q: Queue, ops: seq<Op>)
    requires Legal(q, ops) && WellFormed(q)
    ensures Run(q, ops).nextOrder <= q.nextOrder + |ops|
    ensures q.nextOrder + |ops| <= CYCLE_WRAP ==>
              forall j :: j in Run(q, ops).items ==> Narrow(Run(q, ops).items[j]) == Run(q, ops).items[j]
    decreases |ops|
  {
    if ops == [] {
      if q.nextOrder <= CYCLE_WRAP {
        forall j | j in q.items ensures Narrow(q.items[j]) == q.items[j] {
          Quotient(q.items[j].order, CYCLE_WRAP, 0, q.items[j].order);
        }
      }
    } else {
      StepWellFormed(q, ops[0]);
      hide WellFormed, Possible, IsTop, Apply;
      SeqFits(Apply(q, ops[0]), ops[1..]);
    }
  }

  lemma StepWellFormed(q: Queue, op: Op)
    requires WellFormed(q) && Possible(q, op)
    ensures WellFormed(Apply(q, op)) && Apply(q, op).nextOrder <= q.nextOrder + 1
  {
    if op.ChangeWeight? { ReweighKeeps(q.items[op.id], op.weight, q.base); }
    hide Reweigh;
  }

  lemma ReweighKeeps(c: Child, weight: nat, base: int)
    requires ValidChild(c) && 1 <= weight <= MAX_WEIGHT
    ensures ValidChild(Reweigh(c, weight, base)) && Reweigh(c, weight, base).order == c.order
  {
  }
}
