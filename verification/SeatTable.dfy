/** seats.c as it works: seats and standby customers as linked structures whose
    fields the operations write. Every method is proved to do to `Abs()` what
    SeatModel says; the locks are the business of SeatServer. */
module SeatTables {
  import opened SeatModel

  class SeatNode {
    const id: int
    var customer: int
    var state: SeatState
    var next: SeatNode?

    constructor (id: int)
      ensures this.id == id && customer == -1 && state == Available && next == null
    {
      this.id := id;
      customer, state, next := -1, Available, null;
    }
  }

  class StandbyNode {
    const customer: int
    var next: StandbyNode?

    constructor (customer: int)
      ensures this.customer == customer && next == null
    {
      this.customer := customer;
      next := null;
    }
  }

  ghost function SeatAt(nodes: seq<SeatNode>, i: nat): SeatNode? {
    if i < |nodes| then nodes[i] else null
  }

  ghost function WaitingAt(waiting: seq<StandbyNode>, i: nat): StandbyNode? {
    if i < |waiting| then waiting[i] else null
  }

  ghost predicate SeatOk(nodes: seq<SeatNode>, i: nat)
    requires i < |nodes|
    reads nodes
  {
    nodes[i].id == i && nodes[i].next == SeatAt(nodes, i + 1)
  }

  ghost predicate WaitingOk(waiting: seq<StandbyNode>, i: nat)
    requires i < |waiting|
    reads waiting
  {
    waiting[i].next == WaitingAt(waiting, i + 1)
  }

  ghost predicate AllSeatsOk(nodes: seq<SeatNode>)
    reads nodes
  {
    forall i :: 0 <= i < |nodes| ==> SeatOk(nodes, i)
  }

  ghost predicate AllWaitingOk(waiting: seq<StandbyNode>)
    reads waiting
  {
    && (forall i :: 0 <= i < |waiting| ==> WaitingOk(waiting, i))
    && (forall i, j :: 0 <= i < j < |waiting| ==> waiting[i] != waiting[j])
  }

  ghost function SeatsOf(nodes: seq<SeatNode>): (r: seq<Seat>)
    reads nodes
    ensures |r| == |nodes| && forall i :: 0 <= i < |r| ==> r[i] == Seat(nodes[i].state, nodes[i].customer)
  {
    if nodes == [] then []
    else SeatsOf(nodes[..|nodes| - 1]) + [Seat(nodes[|nodes| - 1].state, nodes[|nodes| - 1].customer)]
  }

  ghost function CustomersOf(waiting: seq<StandbyNode>): (r: seq<int>)
    ensures |r| == |waiting| && forall i :: 0 <= i < |r| ==> r[i] == waiting[i].customer
  {
    if waiting == [] then [] else CustomersOf(waiting[..|waiting| - 1]) + [waiting[|waiting| - 1].customer]
  }

  class SeatTable {
    var seatHeader: SeatNode?
    var head: StandbyNode?
    var standbyLength: int
    ghost var nodes: seq<SeatNode>
    ghost var waiting: seq<StandbyNode>

    ghost predicate Valid()
      reads this, nodes, waiting
    {
      && seatHeader == SeatAt(nodes, 0) && AllSeatsOk(nodes)
      && head == WaitingAt(waiting, 0) && AllWaitingOk(waiting)
      && standbyLength == |waiting| <= STANDBY_SIZE
    }

    ghost function Abs(): Table
      reads this, nodes
    {
      Table(SeatsOf(nodes), CustomersOf(waiting))
    }

    /** load_seats */
    constructor (n: nat)
      ensures Valid() && fresh(nodes) && waiting == [] && Abs() == Loaded(n)
    {
      seatHeader, head, standbyLength := null, null, 0;
      nodes, waiting := [], [];
      new;
      var curr: SeatNode? := null;
      for i := 0 to n
        invariant |nodes| == i && fresh(nodes) && seatHeader == SeatAt(nodes, 0) && AllSeatsOk(nodes)
        invariant curr == if i == 0 then null else nodes[i - 1]
        invariant forall k :: 0 <= k < i ==> nodes[k].state == Available && nodes[k].customer == -1
        invariant head == null && waiting == [] && standbyLength == 0
      {
        var temp := new SeatNode(i);
        label S:
        if seatHeader == null {
          seatHeader := temp;
        } else {
          curr.next := temp;
        }
        ghost var before := nodes;
        nodes := nodes + [temp];
        forall k | 0 <= k < |nodes| ensures SeatOk(nodes, k) {
          assert k < i ==> nodes[k] == before[k] && old@S(SeatOk(before, k)) && old@S(SeatOk(before, i - 1));
        }
        curr := temp;
      }
    }

    /** The walk along the seats that every operation starts with. */
    method FindSeat(id: int) returns (curr: SeatNode?)
      requires Valid()
      ensures curr == if 0 <= id < |nodes| then nodes[id] else null
    {
      curr := seatHeader;
      ghost var i := 0;
      while curr != null
        invariant 0 <= i <= |nodes| && curr == SeatAt(nodes, i)
        invariant 0 <= id < |nodes| ==> i <= id
        decreases |nodes| - i
      {
        assert SeatOk(nodes, i);
        if curr.id == id {
          return;
        }
        curr, i := curr.next, i + 1;
      }
    }

    /** One seat was written. */
    lemma SeatWritten(was: seq<Seat>, i: nat, s: Seat)
      requires |was| == |nodes| && i < |nodes| && Seat(nodes[i].state, nodes[i].customer) == s
      requires forall k :: 0 <= k < |nodes| && k != i ==> Seat(nodes[k].state, nodes[k].customer) == was[k]
      ensures SeatsOf(nodes) == was[i := s]
    {
    }

    method SetSeat(curr: SeatNode, state: SeatState, customer: int, ghost i: nat)
      requires Valid() && i < |nodes| && curr == nodes[i]
      modifies curr`state, curr`customer
      ensures Valid() && SeatsOf(nodes) == old(SeatsOf(nodes))[i := Seat(state, customer)]
    {
      ghost var was := SeatsOf(nodes);
      curr.state := state;
      curr.customer := customer;
      forall k | 0 <= k < |nodes| ensures SeatOk(nodes, k) && (k != i ==> nodes[k] != curr) {
        assert old(SeatOk(nodes, k)) && old(SeatOk(nodes, i));
      }
      SeatWritten(was, i, Seat(state, customer));
    }

    /** view_seat */
    method ViewSeat(id: int, customer: int)
      requires Valid()
      modifies this, nodes, waiting
      ensures Valid() && nodes == old(nodes) && fresh(set w | w in waiting && w !in old(waiting))
      ensures Abs() == Apply(old(Abs()), View(id, customer))
    {
      var curr := FindSeat(id);
      if curr != null {
        ViewFound(curr, id, customer);
      }
    }

    method ViewFound(curr: SeatNode, id: int, customer: int)
      requires Valid() && 0 <= id < |nodes| && curr == nodes[id]
      modifies this`head, this`standbyLength, this`waiting, curr`state, curr`customer, waiting
      ensures Valid() && fresh(set w | w in waiting && w !in old(waiting))
      ensures Known(old(Abs()), id) && Abs() == Viewed(old(Abs()), id, customer)
    {
      if curr.state == Available || (curr.state == Pending && curr.customer == customer) {
        SetSeat(curr, Pending, customer, id);
      } else if standbyLength != STANDBY_SIZE {
        Enqueue(customer);
      }
    }

    /** A customer behind the last one on the standby list. */
    method Enqueue(customer: int)
      requires Valid() && standbyLength != STANDBY_SIZE
      modifies this`head, this`standbyLength, this`waiting, waiting
      ensures Valid() && fresh(set w | w in waiting && w !in old(waiting))
      ensures CustomersOf(waiting) == old(CustomersOf(waiting)) + [customer]
    {
      var newStandby := new StandbyNode(customer);
      ghost var before := waiting;
      if standbyLength == 0 {
        head := newStandby;
      } else {
        var iter, k := head, 0;
        while iter.next != null
          invariant 0 <= k < |waiting| && iter == waiting[k]
          decreases |waiting| - k
          modifies {}
        {
          assert WaitingOk(waiting, k);
          iter, k := iter.next, k + 1;
        }
        assert WaitingOk(waiting, k);
        iter.next := newStandby;
      }
      waiting := waiting + [newStandby];
      standbyLength := standbyLength + 1;
      forall k | 0 <= k < |waiting| ensures WaitingOk(waiting, k) {
        assert k < |before| ==> waiting[k] == before[k] && old(WaitingOk(before, k));
      }
    }

    /** confirm_seat */
    method ConfirmSeat(id: int, customer: int)
      requires Valid()
      modifies nodes
      ensures Valid() && Abs() == Apply(old(Abs()), Confirm(id, customer))
    {
      var curr := FindSeat(id);
      if curr != null && curr.state == Pending && curr.customer == customer {
        SetSeat(curr, Occupied, curr.customer, id);
      }
    }

    /** cancel */
    method CancelSeat(id: int, customer: int)
      requires Valid()
      modifies this, nodes
      ensures Valid() && nodes == old(nodes) && (forall w :: w in waiting ==> w in old(waiting))
      ensures Abs() == Apply(old(Abs()), Cancel(id, customer))
    {
      var curr := FindSeat(id);
      if curr == null {
        return;
      }
      if curr.state == Pending && curr.customer == customer {
        if standbyLength > 0 {
          SeatFromStandby(curr, id);
        } else {
          SetSeat(curr, Available, curr.customer, id);
        }
      }
    }

    /** The first customer on standby gets the seat. */
    method SeatFromStandby(curr: SeatNode, ghost i: nat)
      requires Valid() && standbyLength > 0 && i < |nodes| && curr == nodes[i]
      modifies this`head, this`standbyLength, this`waiting, curr`state, curr`customer
      ensures Valid() && nodes == old(nodes) && waiting == old(waiting)[1..]
      ensures SeatsOf(nodes) == old(SeatsOf(nodes))[i := Seat(Occupied, old(CustomersOf(waiting))[0])]
      ensures CustomersOf(waiting) == old(CustomersOf(waiting))[1..]
    {
      SetSeat(curr, Occupied, head.customer, i);
      Dequeue();
    }

    /** head = head->next */
    method Dequeue()
      requires Valid() && standbyLength > 0
      modifies this`head, this`standbyLength, this`waiting
      ensures Valid() && waiting == old(waiting)[1..]
      ensures CustomersOf(waiting) == old(CustomersOf(waiting))[1..]
    {
      ghost var before := waiting;
      assert WaitingOk(waiting, 0);
      head := head.next;
      standbyLength := standbyLength - 1;
      waiting := waiting[1..];
      forall k | 0 <= k < |waiting| ensures WaitingOk(waiting, k) {
        assert old(WaitingOk(before, k + 1));
      }
    }
  }
}
