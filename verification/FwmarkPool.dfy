/** The pool of fwmarks shared by all balancers: a FIFO queue of free marks and a
    reference-counted table of allocated ones. */
module FwmarkPool {
  import opened Types

  const U32: nat := 0x1_0000_0000

  datatype Lease = Lease(mark: nat, refs: nat)

  datatype Pool = Pool(free: seq<nat>, used: map<IP, Lease>)

  datatype Op = Allocate(address: IP) | Release(address: IP)

  /** One call. Reference counts are 32-bit and wrap. */
  function Step(p: Pool, op: Op): Pool {
    match op
    case Allocate(a) =>
      if a in p.used then p.(used := p.used[a := Lease(p.used[a].mark, (p.used[a].refs + 1) % U32)])
      else if p.free == [] then p
      else Pool(p.free[1..], p.used[a := Lease(p.free[0], 1)])
    case Release(a) =>
      if a !in p.used then p
      else
        var refs := (p.used[a].refs - 1) % U32;
        if refs == 0 then Pool(p.free + [p.used[a].mark], p.used - {a})
        else p.(used := p.used[a := Lease(p.used[a].mark, refs)])
  }

  function Run(p: Pool, ops: seq<Op>): Pool {
    if ops == [] then p else Step(Run(p, ops[..|ops| - 1]), ops[|ops| - 1])
  }

  lemma RunSnoc(p: Pool, ops: seq<Op>, op: Op)
    ensures Run(p, ops + [op]) == Step(Run(p, ops), op)
  {
    assert (ops + [op])[..|ops|] == ops;
  }

  lemma {:induction false} RunAppend(p: Pool, a: seq<Op>, b: seq<Op>)
    ensures Run(p, a + b) == Run(Run(p, a), b)
    decreases |b|
  {
    if b == [] {
      assert a + b == a;
    } else {
      var m := |b| - 1;
      assert a + b == (a + b[..m]) + [b[m]];
      RunAppend(p, a, b[..m]);
      RunSnoc(p, a + b[..m], b[m]);
    }
  }

  // ----- Conservation ------------------------------------------------------------------

  ghost predicate NoDup(s: seq<nat>) {
    forall i, j :: 0 <= i < j < |s| ==> s[i] != s[j]
  }

  ghost function Elems(s: seq<nat>): set<nat> {
    set m | m in s
  }

  ghost function Leased(used: map<IP, Lease>): set<nat> {
    set a | a in used :: used[a].mark
  }

  /** Free and leased marks together are exactly marks, each once. */
  ghost predicate Conserves(p: Pool, marks: set<nat>) {
    && NoDup(p.free)
    && (forall a, b :: a in p.used && b in p.used && p.used[a].mark == p.used[b].mark ==> a == b)
    && (forall m <- p.free :: m !in Leased(p.used))
    && Elems(p.free) + Leased(p.used) == marks
  }

  lemma TakeConserves(p: Pool, marks: set<nat>, a: IP)
    requires Conserves(p, marks) && a !in p.used && p.free != []
    ensures Conserves(Pool(p.free[1..], p.used[a := Lease(p.free[0], 1)]), marks)
  {
    var q := Pool(p.free[1..], p.used[a := Lease(p.free[0], 1)]);
    assert p.free == [p.free[0]] + q.free;
    assert forall b <- p.used :: p.used[b].mark in Leased(p.used);
    assert Leased(q.used) == Leased(p.used) + {p.free[0]} by {
      forall b | b in p.used ensures q.used[b].mark == p.used[b].mark && p.used[b].mark in Leased(q.used) {
        assert b in q.used;
      }
      assert q.used[a].mark in Leased(q.used);
    }
    assert p.free[0] !in q.free;
  }

  lemma ReturnConserves(p: Pool, marks: set<nat>, a: IP)
    requires Conserves(p, marks) && a in p.used
    ensures Conserves(Pool(p.free + [p.used[a].mark], p.used - {a}), marks)
  {
    var q := Pool(p.free + [p.used[a].mark], p.used - {a});
    assert p.used[a].mark in Leased(p.used);
    assert Leased(p.used) == Leased(q.used) + {p.used[a].mark} by {
      forall b | b in p.used && b != a ensures p.used[b].mark in Leased(q.used) {
        assert b in q.used;
      }
    }
    assert forall m :: m in q.free <==> m in p.free || m == p.used[a].mark;
  }

  lemma RecountConserves(p: Pool, marks: set<nat>, a: IP, refs: nat)
    requires Conserves(p, marks) && a in p.used
    ensures Conserves(p.(used := p.used[a := Lease(p.used[a].mark, refs)]), marks)
  {
    var used := p.used[a := Lease(p.used[a].mark, refs)];
    assert Leased(used) == Leased(p.used) by {
      forall b | b in p.used ensures p.used[b].mark in Leased(used) {
        assert b in used && used[b].mark == p.used[b].mark;
      }
      forall b | b in used ensures used[b].mark in Leased(p.used) {
        assert b in p.used && used[b].mark == p.used[b].mark;
      }
    }
  }

  /** No call sequence, with any failures and any wrap-around of counts in it, loses or
      duplicates a mark, so distinct addresses always hold distinct marks. */
  lemma {:induction false} RunConserves(p: Pool, ops: seq<Op>, marks: set<nat>)
    requires Conserves(p, marks)
    ensures Conserves(Run(p, ops), marks)
  {
    if ops != [] {
      var q, op := Run(p, ops[..|ops| - 1]), ops[|ops| - 1];
      RunConserves(p, ops[..|ops| - 1], marks);
      if op.address in q.used {
        RecountConserves(q, marks, op.address, (q.used[op.address].refs + 1) % U32);
        RecountConserves(q, marks, op.address, (q.used[op.address].refs - 1) % U32);
        ReturnConserves(q, marks, op.address);
      } else if q.free != [] {
        TakeConserves(q, marks, op.address);
      }
    }
  }

  // ----- Leases -------------------------------------------------------------------------

  /** How many more references to a were taken than given back. */
  function Net(ops: seq<Op>, a: IP): int {
    if ops == [] then 0
    else
      var op := ops[|ops| - 1];
      Net(ops[..|ops| - 1], a) + if op.address != a then 0 else if op.Allocate? then 1 else -1
  }

  /** Counting from refs, someone refers to a after every call of ops, and no count wraps. */
  ghost predicate StaysReferenced(refs: int, ops: seq<Op>, a: IP) {
    refs + Net(ops, a) > 0 && (ops == [] || StaysReferenced(refs, ops[..|ops| - 1], a))
  }

  ghost predicate NeverWraps(refs: int, ops: seq<Op>, a: IP) {
    refs + Net(ops, a) < U32 && (ops == [] || NeverWraps(refs, ops[..|ops| - 1], a))
  }

  ghost predicate StaysLeased(p: Pool, ops: seq<Op>, a: IP) {
    a in Run(p, ops).used && (ops == [] || StaysLeased(p, ops[..|ops| - 1], a))
  }

  lemma LeaseCall(p: Pool, op: Op, a: IP)
    requires a in p.used && 0 < p.used[a].refs && p.used[a].refs + Net([op], a) < U32
    ensures a in Step(p, op).used <==> p.used[a].refs + Net([op], a) > 0
    ensures a in Step(p, op).used ==> Step(p, op).used[a] == Lease(p.used[a].mark, p.used[a].refs + Net([op], a))
  {
    assert [op][..0] == [];
  }

  /** An address keeps its lease through a run of calls, by whomever, exactly as long as
      fewer references were given back than there are; and as long as it does, its mark is
      the one it had and its count is exact. */
  lemma {:induction false} LeaseLasts(p: Pool, ops: seq<Op>, a: IP)
    requires a in p.used && 0 < p.used[a].refs && NeverWraps(p.used[a].refs, ops, a)
    ensures StaysLeased(p, ops, a) <==> StaysReferenced(p.used[a].refs, ops, a)
    ensures StaysLeased(p, ops, a) ==> Run(p, ops).used[a] == Lease(p.used[a].mark, p.used[a].refs + Net(ops, a))
  {
    if ops != [] {
      var ini, op := ops[..|ops| - 1], ops[|ops| - 1];
      LeaseLasts(p, ini, a);
      assert Net(ops, a) == Net(ini, a) + Net([op], a) by {
        assert [op][..0] == [];
      }
      if StaysLeased(p, ini, a) {
        LeaseCall(Run(p, ini), op, a);
      }
    }
  }

  // ----- First in, first out -----------------------------------------------------------

  /** The marks taken from the pool during a run, in order. */
  function Handed(p: Pool, ops: seq<Op>): seq<nat> {
    if ops == [] then []
    else
      var q, op := Run(p, ops[..|ops| - 1]), ops[|ops| - 1];
      Handed(p, ops[..|ops| - 1]) +
      if op.Allocate? && op.address !in q.used && q.free != [] then [q.free[0]] else []
  }

  /** The marks given back to the pool during a run, in order. */
  function Returned(p: Pool, ops: seq<Op>): seq<nat> {
    if ops == [] then []
    else
      var q, op := Run(p, ops[..|ops| - 1]), ops[|ops| - 1];
      Returned(p, ops[..|ops| - 1]) +
      if op.Release? && op.address in q.used && (q.used[op.address].refs - 1) % U32 == 0 then [q.used[op.address].mark] else []
  }

  /** The pool is a queue: what it held and was given back is what it handed out, then
      what it holds, in that order. */
  lemma {:induction false} QueueLaw(p: Pool, ops: seq<Op>)
    ensures p.free + Returned(p, ops) == Handed(p, ops) + Run(p, ops).free
  {
    if ops != [] {
      var m := |ops| - 1;
      var q, op := Run(p, ops[..m]), ops[m];
      QueueLaw(p, ops[..m]);
      if op.address in q.used {
        var back := Returned(p, ops)[|Returned(p, ops[..m])|..];
        assert Returned(p, ops) == Returned(p, ops[..m]) + back;
        assert Run(p, ops).free == q.free + back;
        assert Handed(p, ops) == Handed(p, ops[..m]);
        assert p.free + Returned(p, ops) == (p.free + Returned(p, ops[..m])) + back;
      } else if op.Allocate? && q.free != [] {
        assert Handed(p, ops) == Handed(p, ops[..m]) + [q.free[0]] && Returned(p, ops) == Returned(p, ops[..m]);
        assert Handed(p, ops) + q.free[1..] == Handed(p, ops[..m]) + q.free;
      } else {
        assert Handed(p, ops) == Handed(p, ops[..m]) && Returned(p, ops) == Returned(p, ops[..m]);
      }
    }
  }

  /** A mark given back with f still free is handed out again only after all of f. */
  lemma ReusedLast(p: Pool, f: seq<nat>, m: nat, ops: seq<Op>)
    requires p.free == f + [m] && NoDup(p.free)
    requires m in Handed(p, ops)
    ensures f + [m] <= Handed(p, ops)
  {
    QueueLaw(p, ops);
    var all := p.free + Returned(p, ops);
    var i :| 0 <= i < |Handed(p, ops)| && Handed(p, ops)[i] == m;
    assert all[i] == m;
    forall j | 0 <= j < |f| ensures all[j] != m {
      assert all[j] == p.free[j] && p.free[|f|] == m;
    }
    assert Handed(p, ops)[..|f| + 1] == all[..|f| + 1] == f + [m];
  }

  // ----- The manager -------------------------------------------------------------------

  function Range(lo: nat, hi: nat): (r: seq<nat>)
    requires lo <= hi
  {
    seq(hi - lo, i => lo + i)
  }

  class Manager {
    var free: seq<nat>
    var used: map<IP, Lease>

    ghost function Value(): Pool
      reads this
    {
      Pool(free, used)
    }

    /** Fills the pool by counting up in 32 bits: a range that reaches past the top wraps
        to a bound below its base and leaves the pool empty. */
    constructor (maxFwmark: nat, base: nat)
      requires maxFwmark < U32 && base < U32
      ensures used == map[]
      ensures free == if base + maxFwmark < U32 then Range(base, base + maxFwmark) else []
      ensures base + maxFwmark < U32 <==> Conserves(Value(), Elems(Range(base, base + maxFwmark)))
    {
      var limit := (base + maxFwmark) % U32;
      var pool: seq<nat> := [];
      var i := base;
      while i < limit
        invariant base <= i && (i <= limit || i == base)
        invariant pool == Range(base, i)
      {
        pool := pool + [i];
        i := i + 1;
      }
      free, used := pool, map[];
      new;
      ghost var range := Range(base, base + maxFwmark);
      if base + maxFwmark >= U32 {
        assert range[0] in Elems(range) && Elems(free) + Leased(used) == {};
      }
    }

    method AllocateFwmark(address: IP) returns (mark: Option<nat>)
      modifies this
      ensures Value() == Step(old(Value()), Allocate(address))
      ensures mark.None? <==> address !in old(used) && old(free) == []
      ensures mark.Some? ==> address in used && used[address].mark == mark.value
    {
      if address in used {
        used := used[address := Lease(used[address].mark, (used[address].refs + 1) % U32)];
        return Some(used[address].mark);
      }
      if |free| == 0 {
        return None;
      }
      mark := Some(free[0]);
      used := used[address := Lease(free[0], 1)];
      free := free[1..];
    }

    /** The mark an address has, which is out of the pool and nobody else's. */
    method GetAllocatedFwmark(address: IP) returns (mark: Option<nat>)
      ensures mark.Some? <==> address in used
      ensures mark.Some? ==> used[address].mark == mark.value
      ensures forall marks :: mark.Some? && Conserves(Value(), marks) ==>
                mark.value in marks - Elems(free) && forall a <- used :: used[a].mark == mark.value ==> a == address
    {
      mark := if address in used then Some(used[address].mark) else None;
    }

    method ReleaseFwmark(address: IP) returns (ok: bool)
      modifies this
      ensures Value() == Step(old(Value()), Release(address))
      ensures ok <==> address in old(used)
      ensures address in old(used) && address in used ==> used[address].mark == old(used)[address].mark
    {
      ok := address in used;
      if ok {
        var lease := Lease(used[address].mark, (used[address].refs - 1) % U32);
        if lease.refs == 0 {
          free, used := free + [lease.mark], used - {address};
        } else {
          used := used[address := lease];
        }
      }
    }
  }
}
