/**
 * Weighted fairness of the scheduler: siblings that stay active with fixed weights share the bytes sent in
 * proportion to their weights, up to a bound that does not grow with the length of the run.
 */
module SchedulerFairness {
  import opened Scheduler

  datatype Turn =
    | Serve(id: Id, length: nat)    // chosen, written, rescheduled
    | Pass(id: Id)                  // chosen, but deferred before anything is written
    | Join(id: Id, child: Child)
    | Leave(id: Id)

  /** The charge of one frame of at most `frame` bytes, rounded up. */
  function Gap(frame: nat, weight: nat): nat
    requires weight > 0
  {
    (frame * 256 + weight - 1) / weight
  }

  ghost predicate Fair(v: Queue, frame: nat)
  {
    && WellFormed(v)
    && forall j :: j in v.items ==> Within(v.items[j], v.base, frame)
  }

  predicate Within(c: Child, base: int, frame: nat)
    requires c.weight > 0
  {
    c.penalty < c.weight && base <= c.cycle <= base + Gap(frame, c.weight)
  }

  predicate Allowed(v: Queue, t: Turn, frame: nat)
  {
    match t
    case Serve(id, length) => VIsTop(v, id) && length <= frame
    case Pass(id) => VIsTop(v, id)
    case Join(id, c) => id !in v.items && ValidChild(c) && c.penalty < c.weight && c.lastWrite <= frame
    case Leave(id) => id in v.items
  }

  function Take(v: Queue, t: Turn): Queue
    requires WellFormed(v) && Allowed(v, t, MAX_FRAME_SIZE)
  {
    match t
    case Serve(id, length) => VApply(VApply(v, Choose(id)), Reschedule(id, length))
    case Pass(id) => VApply(v, Choose(id))
    case Join(id, c) => VApply(v, Push(id, c))
    case Leave(id) => VApply(v, Remove(id))
  }

  predicate Schedule(v: Queue, turns: seq<Turn>, frame: nat)
    decreases |turns|
  {
    turns == [] ||
    (frame <= MAX_FRAME_SIZE && WellFormed(v) && Allowed(v, turns[0], frame) &&
     Allowed(v, turns[0], MAX_FRAME_SIZE) && Schedule(Take(v, turns[0]), turns[1..], frame))
  }

  function TakeAll(v: Queue, turns: seq<Turn>, frame: nat): Queue
    requires Schedule(v, turns, frame)
    decreases |turns|
  {
    if turns == [] then v else TakeAll(Take(v, turns[0]), turns[1..], frame)
  }

  function BytesOf(turns: seq<Turn>, id: Id): nat
  {
    if turns == [] then 0
    else (if turns[0].Serve? && turns[0].id == id then turns[0].length else 0) + BytesOf(turns[1..], id)
  }

  predicate Stays(turns: seq<Turn>, id: Id)
  {
    forall k :: 0 <= k < |turns| ==> !(turns[k].Leave? && turns[k].id == id)
  }

  // ---- one turn -------------------------------------------------------------

  lemma GapBound(frame: nat, weight: nat, length: nat, penalty: nat)
    requires weight > 0 && length <= frame && penalty < weight
    ensures 0 <= (length * 256 + penalty) / weight <= Gap(frame, weight)
  {
    DivMonotone(length * 256 + penalty, frame * 256 + weight - 1, weight);
  }

  lemma DivMonotone(x: nat, y: nat, w: nat)
    requires w > 0 && x <= y
    ensures 0 <= x / w <= y / w
  {
    var a, b := x / w, y / w;
    assert x == w * a + x % w && y == w * b + y % w;
    assert w * (a - b) == w * a - w * b;
    assert a - b >= 1 ==> w * (a - b) >= w;
  }

  lemma ChargedWithin(c: Child, base: int, frame: nat, order: nat)
    requires ValidChild(c) && c.penalty < c.weight && c.lastWrite <= frame
    ensures var n := VNextCycle(c, base).(order := order); ValidChild(n) && Within(n, base, frame)
  {
    GapBound(frame, c.weight, c.lastWrite, c.penalty);
  }

  lemma FairWithChild(v: Queue, id: Id, c: Child, nextOrder: nat, frame: nat)
    requires Fair(v, frame) && ValidChild(c) && Within(c, v.base, frame)
    requires v.nextOrder <= nextOrder && c.order < nextOrder
    requires forall j :: j in v.items && j != id ==> v.items[j].order != c.order
    ensures Fair(Queue(v.base, nextOrder, v.items[id := c]), frame)
  {
    hide Within, ValidChild;
  }

  lemma FairChosen(v: Queue, id: Id, frame: nat)
    requires Fair(v, frame) && VIsTop(v, id)
    ensures Fair(v.(base := v.items[id].cycle), frame)
  {
    var base := v.items[id].cycle;
    assert Within(v.items[id], v.base, frame);
    forall j | j in v.items ensures Within(v.items[j], base, frame) {
      assert Within(v.items[j], v.base, frame) && !VLess(v.items[j], v.items[id]);
    }
  }

  lemma FairTurn(v: Queue, t: Turn, frame: nat)
    requires Fair(v, frame) && Allowed(v, t, frame) && frame <= MAX_FRAME_SIZE
    ensures Allowed(v, t, MAX_FRAME_SIZE) && Fair(Take(v, t), frame)
  {
    hide Within, VNextCycle, VLess;
    match t
    case Serve(id, length) =>
      FairChosen(v, id, frame);
      var u := v.(base := v.items[id].cycle);
      assert Within(u.items[id], u.base, frame);
      WithinPenalty(u.items[id], u.base, frame);
      var c := u.items[id].(lastWrite := length);
      ChargedWithin(c, u.base, frame, u.nextOrder);
      FairWithChild(u, id, VNextCycle(c, u.base).(order := u.nextOrder), u.nextOrder + 1, frame);
    case Pass(id) => FairChosen(v, id, frame);
    case Join(id, c) =>
      ChargedWithin(c, v.base, frame, v.nextOrder);
      FairWithChild(v, id, VNextCycle(c, v.base).(order := v.nextOrder), v.nextOrder + 1, frame);
    case Leave(id) =>
  }

  lemma WithinPenalty(c: Child, base: int, frame: nat)
    requires c.weight > 0 && Within(c, base, frame)
    ensures c.penalty < c.weight
  {
  }

  /** Virtual work: it grows by 256 for every byte, whatever the weight. */
  function Work(c: Child): int { c.weight * c.cycle + c.penalty }

  lemma WorkOfCharge(c: Child, length: nat)
    requires ValidChild(c)
    ensures Work(VNextCycle(c.(lastWrite := length), c.cycle)) == Work(c) + length * 256
  {
    var d := c.(lastWrite := length);
    var n := length * 256 + c.penalty;
    assert n == c.weight * (n / c.weight) + n % c.weight;
    assert c.weight * (c.cycle + n / c.weight) == c.weight * c.cycle + c.weight * (n / c.weight);
  }

  lemma WorkOfTurn(v: Queue, t: Turn, id: Id)
    requires WellFormed(v) && Allowed(v, t, MAX_FRAME_SIZE) && id in v.items
    requires !(t.Leave? && t.id == id)
    ensures var u := Take(v, t);
            && id in u.items && u.items[id].weight == v.items[id].weight
            && Work(u.items[id]) == Work(v.items[id])
                                    + (if t.Serve? && t.id == id then t.length * 256 else 0)
  {
    if t.Serve? && t.id == id {
      WorkOfCharge(v.items[id], t.length);
      WorkIgnoresOrder(VNextCycle(v.items[id].(lastWrite := t.length), v.items[id].cycle), v.nextOrder);
    }
  }

  lemma WorkIgnoresOrder(c: Child, order: nat)
    ensures Work(c.(order := order)) == Work(c)
  {
  }

  // ---- whole runs -------------------------------------------------------------

  /** The bound between siblings is kept for good, and work is conserved byte for byte. */
  lemma {:induction false} FairRun(v: Queue, turns: seq<Turn>, frame: nat, id: Id)
    requires Fair(v, frame) && Schedule(v, turns, frame) && id in v.items && Stays(turns, id)
    ensures var u := TakeAll(v, turns, frame);
            && Fair(u, frame) && id in u.items && u.items[id].weight == v.items[id].weight
            && Work(u.items[id]) == Work(v.items[id]) + 256 * BytesOf(turns, id)
    decreases |turns|
  {
    hide Fair, Allowed, Take, Work;
    if turns != [] {
      FairIsWellFormed(v, frame);
      FairTurn(v, turns[0], frame);
      assert !(turns[0].Leave? && turns[0].id == id);
      WorkOfTurn(v, turns[0], id);
      FairRun(Take(v, turns[0]), turns[1..], frame, id);
    }
  }

  lemma FairIsWellFormed(v: Queue, frame: nat)
    requires Fair(v, frame)
    ensures WellFormed(v)
  {
  }

  /** The sibling that is ahead is ahead by at most its charge for one maximal frame. */
  lemma SiblingsStayClose(v: Queue, frame: nat, i: Id, j: Id)
    requires Fair(v, frame) && i in v.items && j in v.items
    ensures v.items[i].cycle - v.items[j].cycle <= Gap(frame, v.items[i].weight)
  {
    assert Within(v.items[i], v.base, frame) && Within(v.items[j], v.base, frame);
  }

  /**
   * Two siblings that stay queued get bytes in proportion to their weights: the imbalance is bounded by a
   * constant however long the run is.
   */
  lemma WeightedFairness(v: Queue, turns: seq<Turn>, frame: nat, i: Id, j: Id)
    requires Fair(v, frame) && Schedule(v, turns, frame)
    requires i in v.items && j in v.items && Stays(turns, i) && Stays(turns, j)
    ensures var wi, wj := v.items[i].weight, v.items[j].weight;
            256 * (wj * BytesOf(turns, i) - wi * BytesOf(turns, j))
            <= (wi * wj) * (Gap(frame, wi) + Gap(frame, wj) + 2)
  {
    var u := TakeAll(v, turns, frame);
    FairRun(v, turns, frame, i);
    FairRun(v, turns, frame, j);
    SiblingsStayClose(u, frame, i, j);
    SiblingsStayClose(v, frame, j, i);
    assert Within(v.items[i], v.base, frame) && Within(v.items[j], v.base, frame);
    assert Within(u.items[i], u.base, frame) && Within(u.items[j], u.base, frame);
    hide Fair, Within, Gap;
    Balance(v.items[i], u.items[i], BytesOf(turns, i), v.items[j], u.items[j], BytesOf(turns, j),
            Gap(frame, v.items[i].weight), Gap(frame, v.items[j].weight));
  }

  lemma Balance(a: Child, a': Child, m: nat, b: Child, b': Child, n: nat, ga: nat, gb: nat)
    requires 0 <= a.penalty < a.weight && 0 <= a'.penalty < a.weight && a'.weight == a.weight
    requires 0 <= b.penalty < b.weight && 0 <= b'.penalty < b.weight && b'.weight == b.weight
    requires Work(a') == Work(a) + 256 * m && Work(b') == Work(b) + 256 * n
    requires a'.cycle - b'.cycle <= ga && b.cycle - a.cycle <= gb
    ensures 256 * (b.weight * m - a.weight * n) <= (a.weight * b.weight) * (ga + gb + 2)
  {
    var p, q := a.weight, b.weight;
    var x, y := a'.cycle - a.cycle, b'.cycle - b.cycle;
    assert 256 * m == p * x + (a'.penalty - a.penalty);
    assert 256 * n == q * y + (b'.penalty - b.penalty);
    Scaled(p, q, x, a'.penalty - a.penalty, m);
    Scaled(q, p, y, b'.penalty - b.penalty, n);
    assert (p * q) * (ga + gb + 2) == (p * q) * (ga + gb) + 2 * (p * q);
    assert (p * q) * x - (p * q) * y == (p * q) * (x - y);
    MulMonotone(p * q, x - y, ga + gb);
    MulMonotone(q, a'.penalty - a.penalty, p);
    MulMonotone(p, b.penalty - b'.penalty, q);
  }

  lemma Scaled(p: nat, q: nat, x: int, d: int, m: nat)
    requires 256 * m == p * x + d
    ensures 256 * (q * m) == (p * q) * x + q * d
  {
    assert q * (256 * m) == q * (p * x) + q * d;
  }

  lemma MulMonotone(k: nat, x: int, y: int)
    requires x <= y
    ensures k * x <= k * y
  {
    assert k * (y - x) >= 0;
  }
}
