// Identifiers such as C-001, one counter for each prefix.
module IdAllocator {
  // A counter is created from the identifiers already stored. Each allocation is one immediate transaction,
  // so any number of processes take turns.

  import opened Sequences

  // ---------------------------------------------------------------- decimal numbers

  predicate IsDigit(c: char) { '0' <= c <= '9' }

  function DigitChar(d: nat): char
    requires d < 10
  {
    d as char + '0'
  }

  function DigitValue(c: char): nat
    requires IsDigit(c)
  {
    (c - '0') as int
  }

  function Decimal(n: nat): (s: string)
    ensures s != "" && forall i :: 0 <= i < |s| ==> IsDigit(s[i])
  {
    if n < 10 then [DigitChar(n)] else Decimal(n / 10) + [DigitChar(n % 10)]
  }

  predicate AllDigits(s: string) {
    forall i :: 0 <= i < |s| ==> IsDigit(s[i])
  }

  function NumberOf(s: string): nat
    requires AllDigits(s)
  {
    if s == "" then 0 else 10 * NumberOf(s[..|s| - 1]) + DigitValue(s[|s| - 1])
  }

  function Zeros(k: nat): (s: string)
    ensures |s| == k && AllDigits(s)
  {
    seq(k, i => '0')
  }

  // String(n).padStart(3, "0")
  function PadSeq(n: nat): (s: string)
    ensures |s| >= 3 && AllDigits(s)
  {
    var s := Decimal(n);
    if |s| < 3 then Zeros(3 - |s|) + s else s
  }

  lemma {:induction false} NumberOfDecimal(n: nat)
    ensures NumberOf(Decimal(n)) == n
  {
    var s := Decimal(n);
    if n < 10 {
      assert s[..0] == "";
      assert NumberOf(s[..0]) == 0;
    } else {
      NumberOfDecimal(n / 10);
      assert s[..|s| - 1] == Decimal(n / 10);
    }
  }

  lemma {:induction false} LeadingZeros(k: nat, s: string)
    requires AllDigits(s)
    ensures NumberOf(Zeros(k) + s) == NumberOf(s)
  {
    var padded := Zeros(k) + s;
    if s == "" {
      assert padded == Zeros(k);
      if k > 0 {
        assert padded[..k - 1] == Zeros(k - 1) + "";
        LeadingZeros(k - 1, "");
      }
    } else {
      assert padded[..|padded| - 1] == Zeros(k) + s[..|s| - 1];
      LeadingZeros(k, s[..|s| - 1]);
    }
  }

  lemma NumberOfPadded(n: nat)
    ensures NumberOf(PadSeq(n)) == n
  {
    NumberOfDecimal(n);
    var s := Decimal(n);
    if |s| < 3 {
      LeadingZeros(3 - |s|, s);
    }
  }

  lemma {:induction false} NoLeadingZero(n: nat)
    ensures n > 0 ==> Decimal(n)[0] != '0'
    ensures |Decimal(n)| == 1 <==> n < 10
  {
    if n >= 10 {
      NoLeadingZero(n / 10);
    }
  }

  // Three digits, and more only for a number that needs them.
  lemma PaddedToThree(n: nat)
    ensures |PadSeq(n)| == 3 || (|PadSeq(n)| > 3 && PadSeq(n)[0] != '0')
  {
    NoLeadingZero(n);
  }

  // ---------------------------------------------------------------- identifiers

  function IdText(prefix: string, n: nat): string {
    prefix + "-" + PadSeq(n)
  }

  // new RegExp(`^${prefix}-(\\d+)$`).exec(id), as the number it captures
  function MatchNumber(prefix: string, id: string): Option<nat> {
    var head := prefix + "-";
    if head <= id && |id| > |head| && AllDigits(id[|head|..]) then Some(NumberOf(id[|head|..])) else None
  }

  lemma MatchOwnId(prefix: string, n: nat)
    ensures MatchNumber(prefix, IdText(prefix, n)) == Some(n)
  {
    var head := prefix + "-";
    assert IdText(prefix, n)[|head|..] == PadSeq(n);
    NumberOfPadded(n);
  }

  // Different prefixes or different numbers give different identifiers.
  lemma IdTextInjective(p: string, m: nat, q: string, n: nat)
    requires IdText(p, m) == IdText(q, n)
    ensures p == q && m == n
  {
    var s := IdText(p, m);
    var a, b := PadSeq(m), PadSeq(n);
    assert s[|p|] == '-' && s[|q|] == '-';
    assert forall i :: |p| < i < |s| ==> s[i] == a[i - |p| - 1];
    assert forall i :: |q| < i < |s| ==> s[i] == b[i - |q| - 1];
    assert |p| == |q|;
    assert p == s[..|p|] && q == s[..|q|];
    MatchOwnId(p, m);
    MatchOwnId(q, n);
  }

  // The largest number among the stored identifiers of a prefix; 0 when there is none.
  function LargestNumber(prefix: string, ids: seq<string>): (max: nat)
    ensures forall k :: 0 <= k < |ids| ==> var m := MatchNumber(prefix, ids[k]); m.Some? ==> m.value <= max
    ensures max == 0 || exists k :: 0 <= k < |ids| && MatchNumber(prefix, ids[k]) == Some(max)
  {
    if ids == [] then 0
    else
      var rest := LargestNumber(prefix, ids[..|ids| - 1]);
      var m := MatchNumber(prefix, ids[|ids| - 1]);
      if m.Some? && m.value > rest then m.value else rest
  }

  // The number the next identifier of a prefix gets.
  function NextNumber(next: map<string, nat>, ids: seq<string>, prefix: string): nat {
    if prefix in next then next[prefix] else LargestNumber(prefix, ids) + 1
  }

  class Allocator {
    var next: map<string, nat>  // id_allocators
    var ids: seq<string>        // the ids of claims, proof_attempts, research_steps and formal_statements

    method AllocateId(prefix: string) returns (id: string)
      modifies this`next
      ensures var n := NextNumber(old(next), ids, prefix);
              id == IdText(prefix, n) && next == old(next)[prefix := n + 1]
    {
      if prefix !in next {
        var max := 0;
        for k := 0 to |ids|
          invariant max == LargestNumber(prefix, ids[..k])
        {
          assert ids[..k + 1][..k] == ids[..k];
          var match_ := MatchNumber(prefix, ids[k]);
          if match_.Some? {
            max := if match_.value > max then match_.value else max;
          }
        }
        assert ids[..|ids|] == ids;
        var number := max + 1;
        next := next[prefix := number + 1];
        return IdText(prefix, number);
      }
      var number := next[prefix];
      next := next[prefix := next[prefix] + 1];
      return IdText(prefix, number);
    }
  }

  // ---------------------------------------------------------------- whole histories

  datatype Issued = Issued(prefix: string, number: nat)

  // `log` lists what was issued; `seen` keeps, for each counter created, the ids stored at that moment.
  datatype Store = Store(next: map<string, nat>, ids: seq<string>, log: seq<Issued>, seen: map<string, seq<string>>)

  // Between allocations the tables may change in any way.
  datatype Step = Allocate(prefix: string) | ChangeTables(ids: seq<string>)

  function Next(s: Store, step: Step): Store {
    match step
    case ChangeTables(ids) => s.(ids := ids)
    case Allocate(prefix) =>
      var n := NextNumber(s.next, s.ids, prefix);
      Store(s.next[prefix := n + 1], s.ids, s.log + [Issued(prefix, n)],
            if prefix in s.next then s.seen else s.seen[prefix := s.ids])
  }

  function Execute(s: Store, steps: seq<Step>): Store {
    if steps == [] then s else Next(Execute(s, steps[..|steps| - 1]), steps[|steps| - 1])
  }

  // A database found with any counters and any tables.
  predicate Initial(s: Store) {
    s.log == [] && s.seen == map[]
  }

  // Every number issued is below its counter, and those of a prefix increase.
  ghost predicate Counted(s: Store) {
    && (forall k :: 0 <= k < |s.log| ==> s.log[k].prefix in s.next && s.log[k].number < s.next[s.log[k].prefix])
    && (forall j, k :: 0 <= j < k < |s.log| && s.log[j].prefix == s.log[k].prefix ==> s.log[j].number < s.log[k].number)
  }

  // A counter created here, and every number issued from it, is past the ids stored then.
  ghost predicate PastSeen(s: Store) {
    && (forall p :: p in s.seen ==> p in s.next && s.next[p] > LargestNumber(p, s.seen[p]))
    && (forall k :: 0 <= k < |s.log| && s.log[k].prefix in s.seen ==>
          s.log[k].number > LargestNumber(s.log[k].prefix, s.seen[s.log[k].prefix]))
  }

  ghost predicate Invariant(s: Store) {
    Counted(s) && PastSeen(s)
  }

  lemma StaysCounted(s: Store, step: Step)
    requires Counted(s)
    ensures Counted(Next(s, step))
  {
  }

  lemma StaysPastSeen(s: Store, step: Step)
    requires Invariant(s)
    ensures PastSeen(Next(s, step))
  {
    if step.Allocate? {
      IssuedPastSeen(s, step.prefix);
      var next := Next(s, step);
      assert forall k :: 0 <= k < |s.log| ==> next.log[k] == s.log[k];
      assert forall p :: p in s.seen && p != step.prefix ==> p in next.seen && next.seen[p] == s.seen[p];
    }
  }

  lemma IssuedPastSeen(s: Store, prefix: string)
    requires Invariant(s)
    ensures var n, next := NextNumber(s.next, s.ids, prefix), Next(s, Allocate(prefix));
            prefix in next.seen ==> n > LargestNumber(prefix, next.seen[prefix])
    ensures prefix !in s.next ==> forall k :: 0 <= k < |s.log| ==> s.log[k].prefix != prefix
  {
  }

  lemma NextInvariant(s: Store, step: Step)
    requires Invariant(s)
    ensures Invariant(Next(s, step))
  {
    StaysCounted(s, step);
    StaysPastSeen(s, step);
  }

  lemma {:induction false} EveryHistory(s: Store, steps: seq<Step>)
    requires Initial(s)
    ensures Invariant(Execute(s, steps))
  {
    if steps != [] {
      EveryHistory(s, steps[..|steps| - 1]);
      NextInvariant(Execute(s, steps[..|steps| - 1]), steps[|steps| - 1]);
    }
  }

  // No identifier is issued twice, whatever the prefixes; those of one prefix count upwards; and none was
  // stored when its counter was created.
  lemma IdsNeverRepeat(s: Store, steps: seq<Step>, j: nat, k: nat)
    requires Initial(s) && j < k < |Execute(s, steps).log|
    ensures var log := Execute(s, steps).log;
            && (log[j].prefix == log[k].prefix ==> log[j].number < log[k].number)
            && IdText(log[j].prefix, log[j].number) != IdText(log[k].prefix, log[k].number)
  {
    EveryHistory(s, steps);
    var log := Execute(s, steps).log;
    if IdText(log[j].prefix, log[j].number) == IdText(log[k].prefix, log[k].number) {
      IdTextInjective(log[j].prefix, log[j].number, log[k].prefix, log[k].number);
      assert false;
    }
  }

  lemma IdsAreNew(s: Store, steps: seq<Step>, k: nat)
    requires Initial(s) && k < |Execute(s, steps).log|
    requires Execute(s, steps).log[k].prefix in Execute(s, steps).seen
    ensures var t := Execute(s, steps);
            IdText(t.log[k].prefix, t.log[k].number) !in t.seen[t.log[k].prefix]
  {
    EveryHistory(s, steps);
    var t := Execute(s, steps);
    var issued := t.log[k];
    MatchOwnId(issued.prefix, issued.number);
  }

  // How many identifiers of a prefix a log lists.
  function CountIssued(log: seq<Issued>, prefix: string): nat {
    if log == [] then 0
    else CountIssued(log[..|log| - 1], prefix) + if log[|log| - 1].prefix == prefix then 1 else 0
  }

  // What the tables held when the prefix was first allocated.
  function IdsAtFirst(s: Store, steps: seq<Step>, prefix: string): seq<string> {
    if steps == [] then []
    else
      var front := steps[..|steps| - 1];
      if Allocate(prefix) in front then IdsAtFirst(s, front, prefix) else Execute(s, front).ids
  }

  // The first number of a prefix: that of its counter, or the one behind the largest stored then.
  function FirstNumber(s: Store, steps: seq<Step>, prefix: string): nat {
    if prefix in s.next then s.next[prefix] else LargestNumber(prefix, IdsAtFirst(s, steps, prefix)) + 1
  }

  // The numbers of a prefix in the log run from the first number on without a gap, and the counter stands behind them.
  ghost predicate Consecutive(t: Store, prefix: string, first: nat) {
    && prefix in t.next && t.next[prefix] == first + CountIssued(t.log, prefix)
    && forall k :: 0 <= k < |t.log| && t.log[k].prefix == prefix ==> t.log[k].number == first + CountIssued(t.log[..k], prefix)
  }

  lemma AllocateConsecutive(t: Store, step: Step, prefix: string, first: nat)
    requires Consecutive(t, prefix, first)
    ensures Consecutive(Next(t, step), prefix, first)
  {
    var next := Next(t, step);
    assert next.log[..|t.log|] == t.log;
    assert forall k :: 0 <= k < |t.log| ==> next.log[..k] == t.log[..k];
    assert next.log != t.log ==> next.log[..|next.log| - 1] == t.log;
  }

  lemma FirstConsecutive(t: Store, prefix: string)
    requires forall k :: 0 <= k < |t.log| ==> t.log[k].prefix != prefix
    requires CountIssued(t.log, prefix) == 0
    ensures Consecutive(Next(t, Allocate(prefix)), prefix, if prefix in t.next then t.next[prefix] else LargestNumber(prefix, t.ids) + 1)
  {
    var next := Next(t, Allocate(prefix));
    assert next.log[..|t.log|] == t.log;
  }

  lemma {:induction false} NoneIssued(log: seq<Issued>, prefix: string)
    requires forall k :: 0 <= k < |log| ==> log[k].prefix != prefix
    ensures CountIssued(log, prefix) == 0
  {
    if log != [] {
      NoneIssued(log[..|log| - 1], prefix);
    }
  }

  // Before its first allocation nothing of a prefix changes.
  lemma {:induction false} Untouched(s: Store, steps: seq<Step>, prefix: string)
    requires Initial(s) && Allocate(prefix) !in steps
    ensures var t := Execute(s, steps);
            && (prefix in t.next <==> prefix in s.next) && (prefix in s.next ==> t.next[prefix] == s.next[prefix])
            && forall k :: 0 <= k < |t.log| ==> t.log[k].prefix != prefix
  {
    if steps != [] {
      assert steps == steps[..|steps| - 1] + [steps[|steps| - 1]];
      Untouched(s, steps[..|steps| - 1], prefix);
    }
  }

  // In every history the identifiers of a prefix are numbered without a gap.
  lemma {:induction false} NumbersConsecutive(s: Store, steps: seq<Step>, prefix: string)
    requires Initial(s) && Allocate(prefix) in steps
    ensures Consecutive(Execute(s, steps), prefix, FirstNumber(s, steps, prefix))
  {
    var front, last := steps[..|steps| - 1], steps[|steps| - 1];
    assert steps == front + [last];
    var before, first := Execute(s, front), FirstNumber(s, steps, prefix);
    if Allocate(prefix) in front {
      NumbersConsecutive(s, front, prefix);
      assert first == FirstNumber(s, front, prefix);
      AllocateConsecutive(before, last, prefix, first);
    } else {
      Untouched(s, front, prefix);
      NoneIssued(before.log, prefix);
      assert last == Allocate(prefix);
      assert first == if prefix in before.next then before.next[prefix] else LargestNumber(prefix, before.ids) + 1;
      FirstConsecutive(before, prefix);
    }
  }
}
