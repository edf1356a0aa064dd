/**
 * The instructions the CPU-control helpers issue, as abstract events of a trace,
 * and the synchronization discipline those helpers keep.
 */
module Instructions {
  import opened CpuTypes
  import opened Translation

  datatype Instruction =
    | DsbSy                                      // dsb sy
    | DsbIsh                                     // dsb ish
    | DmbSy                                      // dmb sy
    | Isb                                        // isb
    | IcIallu                                    // ic iallu
    | TlbiVmalle1is                              // tlbi vmalle1is
    | At(kind: AccessKind, level: ExceptionLevel) // at s1e{0,1}{r,w}
    | MrsParEl1                                  // read of PAR_EL1
    | ClearPage(page: Word)                      // call of the page-clearing routine

  /** Cache and TLB invalidations: their effect must be made visible by DSB SY; ISB. */
  predicate IsInvalidation(i: Instruction)
  {
    i == IcIallu || i == TlbiVmalle1is
  }

  /**
   * The discipline, as a grammar over the trace: every invalidation is immediately
   * followed by DSB SY then ISB, and every AT probe by ISB then the read of PAR_EL1;
   * PAR_EL1 is never read outside such a probe.
   */
  predicate Synchronized(t: seq<Instruction>)
    decreases |t|
  {
    if t == [] then true
    else if IsInvalidation(t[0]) then
      3 <= |t| && t[1] == DsbSy && t[2] == Isb && Synchronized(t[3..])
    else if t[0].At? then
      3 <= |t| && t[1] == Isb && t[2] == MrsParEl1 && Synchronized(t[3..])
    else if t[0] == MrsParEl1 then false
    else Synchronized(t[1..])
  }

  /** The same discipline read instruction by instruction, at position i of t. */
  predicate WellPlaced(t: seq<Instruction>, i: nat)
    requires i < |t|
  {
    if IsInvalidation(t[i]) then i + 2 < |t| && t[i + 1] == DsbSy && t[i + 2] == Isb
    else if t[i].At? then i + 2 < |t| && t[i + 1] == Isb && t[i + 2] == MrsParEl1
    else if t[i] == MrsParEl1 then 2 <= i && t[i - 2].At? && t[i - 1] == Isb
    else true
  }

  predicate EveryWellPlaced(t: seq<Instruction>)
  {
    forall i :: 0 <= i < |t| ==> WellPlaced(t, i)
  }

  /** Two synchronized traces issued one after the other give a synchronized trace. */
  lemma {:induction false} SynchronizedConcat(a: seq<Instruction>, b: seq<Instruction>)
    requires Synchronized(a) && Synchronized(b)
    ensures Synchronized(a + b)
    decreases |a|
  {
    if a == [] {
      assert a + b == b;
    } else {
      var k := if IsInvalidation(a[0]) || a[0].At? then 3 else 1;
      assert (a + b)[k..] == a[k..] + b;
      SynchronizedConcat(a[k..], b);
    }
  }

  /** An invalidation followed by DSB SY; ISB keeps a trace synchronized. */
  lemma AppendInvalidation(t: seq<Instruction>, i: Instruction)
    requires Synchronized(t) && IsInvalidation(i)
    ensures Synchronized(t + [i, DsbSy, Isb])
  {
    assert [i, DsbSy, Isb][3..] == [];
    SynchronizedConcat(t, [i, DsbSy, Isb]);
  }

  /** An AT probe followed by ISB and the read of PAR_EL1 keeps a trace synchronized. */
  lemma AppendProbe(t: seq<Instruction>, kind: AccessKind, level: ExceptionLevel)
    requires Synchronized(t)
    ensures Synchronized(t + [At(kind, level), Isb, MrsParEl1])
  {
    assert [At(kind, level), Isb, MrsParEl1][3..] == [];
    SynchronizedConcat(t, [At(kind, level), Isb, MrsParEl1]);
  }

  /** Synchronized traces are exactly those where every instruction is well placed. */
  lemma {:induction false} SynchronizedIffEveryWellPlaced(t: seq<Instruction>)
    ensures Synchronized(t) <==> EveryWellPlaced(t)
    decreases |t|
  {
    if t != [] {
      var k := if IsInvalidation(t[0]) || t[0].At? then 3 else 1;
      if k <= |t| {
        var rest := t[k..];
        SynchronizedIffEveryWellPlaced(rest);
        if Synchronized(t) {
          forall i | 0 <= i < |t| ensures WellPlaced(t, i) {
            if k <= i {
              assert WellPlaced(rest, i - k);
            }
          }
        }
        if EveryWellPlaced(t) {
          assert WellPlaced(t, 0);
          forall j | 0 <= j < |rest| ensures WellPlaced(rest, j) {
            assert WellPlaced(t, j + k);
          }
        }
      } else {
        assert !WellPlaced(t, 0);
      }
    }
  }
}
