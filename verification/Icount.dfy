/** Instruction counting: the budget that `tcg_cpu_exec` (cpus.c) grants, how translated blocks use it up, and how
    `cpu_exec` (cpu-exec.c) refills the 16-bit decrementer. */
module Icount {
  import opened Arith

  const INT32_MAX: int := 0x7fff_ffff
  const CF_COUNT_MASK: nat := 0x7fff

  function Pow2(n: nat): (r: nat)
    ensures r > 0
  {
    if n == 0 then 1 else 2 * Pow2(n - 1)
  }

  /** qemu_icount_round */
  function Round(count: nat, shift: nat): nat { (count + Pow2(shift) - 1) / Pow2(shift) }

  /** The least number of instructions whose time reaches the deadline; they overshoot it by less than one's time. */
  lemma RoundIsLeast(deadline: nat, shift: nat, n: nat)
    ensures Round(deadline, shift) * Pow2(shift) >= deadline
    ensures Round(deadline, shift) * Pow2(shift) - deadline < Pow2(shift)
    ensures n * Pow2(shift) >= deadline ==> Round(deadline, shift) <= n
  {
    Ceiling(deadline, Pow2(shift), Round(deadline, shift), n);
  }

  lemma Ceiling(x: nat, p: nat, q: nat, n: nat)
    requires p > 0 && q == (x + p - 1) / p
    ensures x <= q * p < x + p && (n * p >= x ==> q <= n)
  {
    var r := (x + p - 1) % p;
    assert x + p - 1 == q * p + r;
    if n < q { MulMonotone(n + 1, q, p); }
  }

  /** The deadline that tcg_cpu_exec works with: none, or one far off, stands for INT32_MAX. */
  function Clamped(deadline: int): nat { if deadline < 0 || deadline > INT32_MAX then INT32_MAX else deadline }

  datatype Exit = Ran | Expired

  class CpuState {
    const shift: nat
    const bias: int
    /** qemu_icount, icount_decr.u16.low, whether icount_decr.u16.high is 0xffff, and icount_extra */
    var icount: int
    var low: nat
    var interrupted: bool
    var extra: int
    /** Instructions executed so far */
    ghost var executed: int

    /** What has been counted and is not still to be run has been executed. */
    ghost predicate Valid()
      reads this
    {
      icount - (low + extra) == executed && low <= 0xffff && extra >= 0
    }

    constructor (shift: nat, bias: int)
      ensures Valid() && this.shift == shift && this.bias == bias && low == 0 && extra == 0 && executed == 0
              && !interrupted
    {
      this.shift, this.bias, icount, low, interrupted, extra, executed := shift, bias, 0, 0, false, 0, 0;
    }

    /** icount_decr.u32, as the signed number that blocks and cpu_exec take it for */
    function Decrementer(): int
      reads this
    {
      if interrupted then low - 0x1_0000 else low
    }

    /** cpu_get_icount_locked: virtual time is the time of the instructions executed. */
    method Clock() returns (ns: int)
      requires Valid()
      ensures ns == bias + executed * Pow2(shift)
    {
      ns := bias + (icount - (low + extra)) * Pow2(shift);
    }

    /** What has not been run is taken back: before and after cpu_exec */
    method Fold()
      requires Valid()
      modifies this`icount, this`low, this`extra
      ensures Valid() && icount == executed && low == 0 && extra == 0
    {
      icount := icount - (low + extra);
      low, extra := 0, 0;
    }

    /** The end of tcg_cpu_exec, which also clears the interrupt flag */
    method Finish()
      requires Valid()
      modifies this`icount, this`low, this`extra, this`interrupted
      ensures Valid() && icount == executed && low == 0 && extra == 0 && !interrupted
    {
      Fold();
      interrupted := false;
    }

    /** The budget for one call of cpu_exec */
    method Grant(deadline: int)
      requires Valid()
      modifies this`icount, this`low, this`extra
      ensures Valid() && low + extra == Round(Clamped(deadline), shift) && (extra > 0 ==> low == 0xffff)
      ensures low + extra == if 0 <= deadline <= INT32_MAX then Round(deadline, shift) else Round(INT32_MAX, shift)
    {
      Fold();
      var count := Round(Clamped(deadline), shift);
      icount := icount + count;
      var decr := if count > 0xffff then 0xffff else count;
      count := count - decr;
      low, extra := decr, count;
    }

    /** cpu_interrupt */
    method Interrupt()
      modifies this`interrupted
      ensures interrupted
    {
      interrupted := true;
    }

    /** A translated block of n instructions: it runs whole and counts itself, or does not start. */
    method RunBlock(n: nat) returns (exit: Exit)
      requires Valid()
      modifies this`low, this`executed
      ensures Valid() && exit == (if old(Decrementer()) >= n then Ran else Expired)
      ensures exit == Ran ==> !interrupted && low == old(low) - n && executed == old(executed) + n
      ensures exit == Expired ==> low == old(low) && executed == old(executed)
    {
      var count := Decrementer() - n;
      if count < 0 {
        return Expired;
      }
      low := count % 0x1_0000;
      executed := executed + n;
      exit := Ran;
    }

    /** The TB_EXIT_ICOUNT_EXPIRED branch of cpu_exec; m is how many of the instructions it asks for fit into the
        block that cpu_exec_nocache makes. */
    method HandleExpired(m: nat) returns (more: bool)
      requires Valid()
      modifies this`low, this`extra, this`executed
      ensures Valid() && more == (old(extra) > 0 && !interrupted)
      ensures more ==>
              executed == old(executed) && low + extra == old(low + extra) && (extra > 0 ==> low == 0xffff)
              && low > 0
      ensures !more ==>
              extra == old(extra) && low <= old(low) && executed - old(executed) == old(low) - low
              && executed - old(executed) == if interrupted then 0 else Min(m, Min(old(low), CF_COUNT_MASK))
    {
      var left := Decrementer();
      if extra != 0 && left >= 0 {
        extra := extra + left;
        left := if extra > 0xffff then 0xffff else extra;
        extra := extra - left;
        low := left;
        more := true;
      } else {
        if left > 0 {
          var max := if left > CF_COUNT_MASK then CF_COUNT_MASK else left;
          var exit := RunBlock(if m < max then m else max);
        }
        more := false;
      }
    }
  }

  /** What happens while cpu_exec runs: the next block has n instructions, or an interrupt comes. */
  datatype Event = Block(n: nat, m: nat) | Interrupt

  /** The instructions of the first n events' blocks */
  function Asked(events: seq<Event>, n: nat): nat
    requires n <= |events|
  {
    if n == 0 then 0 else Asked(events, n - 1) + if events[n - 1].Block? then events[n - 1].n else 0
  }

  lemma {:induction false} AskedGrows(events: seq<Event>, m: nat, n: nat)
    requires m <= n <= |events|
    ensures Asked(events, m) <= Asked(events, n)
  {
    if m < n { AskedGrows(events, m, n - 1); }
  }

  /** A block has no more instructions than the translator puts into one. */
  predicate EventOk(e: Event) { e.Block? ==> e.n <= CF_COUNT_MASK }

  /** The next event. A block that does not start is left to cpu_exec's handling of an expired decrementer, and tried
      again after a refill. */
  method Next(cpu: CpuState, e: Event) returns (go: bool)
    requires cpu.Valid() && EventOk(e)
    modifies cpu`low, cpu`extra, cpu`executed, cpu`interrupted
    ensures cpu.Valid() && cpu.executed + cpu.low + cpu.extra == old(cpu.executed + cpu.low + cpu.extra)
    ensures cpu.interrupted == (old(cpu.interrupted) || e.Interrupt?)
    ensures 0 <= cpu.executed - old(cpu.executed) <= if e.Block? then e.n else 0
    ensures old(cpu.interrupted) ==> cpu.executed == old(cpu.executed)
    ensures go <==> e.Interrupt? || (!old(cpu.interrupted) && e.n <= old(cpu.low + cpu.extra))
    ensures e.Block? && go ==> cpu.executed == old(cpu.executed) + e.n
    ensures e.Block? && !go && !old(cpu.interrupted) ==>
              cpu.executed == old(cpu.executed) + Min(e.m, old(cpu.low + cpu.extra))
  {
    go := true;
    match e {
      case Interrupt => cpu.Interrupt();
      case Block(n, m) =>
        var exit := cpu.RunBlock(n);
        while exit == Expired && go
          invariant cpu.Valid() && cpu.interrupted == old(cpu.interrupted)
          invariant cpu.executed + cpu.low + cpu.extra == old(cpu.executed + cpu.low + cpu.extra)
          invariant exit == Expired && go ==> cpu.executed == old(cpu.executed) && (cpu.interrupted || cpu.low < n)
          invariant exit == Ran ==>
                    go && !cpu.interrupted && cpu.executed == old(cpu.executed) + n && n <= old(cpu.low + cpu.extra)
          invariant !go ==> 0 <= cpu.executed - old(cpu.executed) < n || cpu.executed == old(cpu.executed)
          invariant !go ==> exit == Expired && (cpu.interrupted || old(cpu.low + cpu.extra) < n)
          invariant !go && !cpu.interrupted ==>
                    cpu.executed == old(cpu.executed) + Min(m, old(cpu.low + cpu.extra))
          invariant cpu.interrupted ==> cpu.executed == old(cpu.executed)
          decreases exit == Expired && go, cpu.extra
        {
          go := cpu.HandleExpired(m);
          if go {
            exit := cpu.RunBlock(n);
          }
        }
    }
  }

  /** No interrupt comes, and the blocks fit into the budget. */
  predicate Plain(cpu: CpuState, events: seq<Event>)
    reads cpu
  {
    && !cpu.interrupted && Asked(events, |events|) <= cpu.low + cpu.extra
    && forall j :: 0 <= j < |events| ==> events[j].Block?
  }

  /** Of the first n events, the first interrupt is at hit, or there is none and hit is n. */
  predicate FirstInterrupt(events: seq<Event>, n: nat, hit: nat)
    requires n <= |events|
  {
    hit <= n && (hit < n ==> events[hit].Interrupt?) && forall j :: 0 <= j < hit ==> events[j].Block?
  }

  /** The loop of cpu_exec, for any course of events: what is run is taken off the budget. Blocks that fit into the
      budget are all run, through as many refills of the decrementer as it takes; after an interrupt none is, and the
      next one ends the loop. */
  method Course(cpu: CpuState, events: seq<Event>) returns (taken: nat, ghost hit: nat)
    requires cpu.Valid() && forall j :: 0 <= j < |events| ==> EventOk(events[j])
    modifies cpu`low, cpu`extra, cpu`executed, cpu`interrupted
    ensures cpu.Valid() && cpu.executed + cpu.low + cpu.extra == old(cpu.executed + cpu.low + cpu.extra)
            && old(cpu.executed) <= cpu.executed
    ensures taken <= |events| && (taken < |events| ==> taken > 0 && events[taken - 1].Block?)
    ensures old(Plain(cpu, events)) ==> taken == |events| && cpu.executed == old(cpu.executed) + Asked(events, |events|)
    ensures FirstInterrupt(events, taken, hit) && cpu.executed - old(cpu.executed) <= Asked(events, hit)
    ensures forall k :: hit < k < taken && events[k].Block? ==> k == taken - 1
  {
    taken, hit := 0, 0;
    var go := true;
    while taken < |events| && go
      invariant taken <= |events| && cpu.Valid() && (!go ==> taken > 0 && events[taken - 1].Block?)
      invariant FirstInterrupt(events, taken, hit) && (hit < taken ==> cpu.interrupted)
      invariant 0 <= cpu.executed - old(cpu.executed) <= Asked(events, hit)
      invariant cpu.executed + cpu.low + cpu.extra == old(cpu.executed + cpu.low + cpu.extra)
      invariant old(Plain(cpu, events)) ==>
                go && !cpu.interrupted && cpu.executed == old(cpu.executed) + Asked(events, taken)
      invariant forall k :: hit < k < taken && events[k].Block? ==> k == taken - 1 && !go
      decreases |events| - taken, go
    {
      AskedGrows(events, taken + 1, |events|);
      go := Next(cpu, events[taken]);
      if hit == taken && events[taken].Block? { hit := hit + 1; }
      taken := taken + 1;
    }
  }

  /** One call of tcg_cpu_exec, for any course of events: it runs no more instructions than were granted, so
      that virtual time goes past the deadline by less than one instruction, and counts all that it runs. If the blocks
      fit into the budget, and no interrupt comes, it runs them all. */
  method Slice(cpu: CpuState, deadline: int, events: seq<Event>) returns (taken: nat, ghost hit: nat)
    requires cpu.Valid() && forall j :: 0 <= j < |events| ==> EventOk(events[j])
    modifies cpu
    ensures cpu.Valid() && cpu.icount == cpu.executed && cpu.low == 0 && cpu.extra == 0 && !cpu.interrupted
    ensures 0 <= cpu.executed - old(cpu.executed) <= Round(Clamped(deadline), cpu.shift)
    ensures (cpu.executed - old(cpu.executed)) * Pow2(cpu.shift) < Clamped(deadline) + Pow2(cpu.shift)
    ensures 0 <= deadline <= INT32_MAX ==>
              (cpu.executed - old(cpu.executed)) * Pow2(cpu.shift) < deadline + Pow2(cpu.shift)
    ensures !old(cpu.interrupted) && (forall j :: 0 <= j < |events| ==> events[j].Block?)
            && Asked(events, |events|) <= Round(Clamped(deadline), cpu.shift)
            ==> cpu.executed == old(cpu.executed) + Asked(events, |events|)
    ensures taken <= |events| && FirstInterrupt(events, taken, hit)
            && cpu.executed - old(cpu.executed) <= Asked(events, hit)
  {
    cpu.Grant(deadline);
    ghost var granted := Round(Clamped(deadline), cpu.shift);
    taken, hit := Course(cpu, events);
    cpu.Finish();
    RoundIsLeast(Clamped(deadline), cpu.shift, 0);
    MulMonotone(cpu.executed - old(cpu.executed), granted, Pow2(cpu.shift));
  }
}
