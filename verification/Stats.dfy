/** Counters, failure policy and the log-once memo (src/stats.rs). */
module Stats {
  import opened Bytes
  import Codec

  datatype RejectReason = Plaintext | TooShort | BadFlags | LenMismatch | NoPeer | NoEpoch | AuthFailed

  const REASON_COUNT := 7

  datatype FailPolicy = Silent | LogOnce | Verbose

  type Rejects = s: seq<U64> | |s| == REASON_COUNT witness [0, 0, 0, 0, 0, 0, 0]

  datatype Counters = Counters(
    rxTotal: U64, rxOk: U64, rxRejects: Rejects,
    txTotal: U64, txStandard: U64, txDek: U64, txOversize: U64)

  /** The three cells, the memo read as a set of reasons, and the policy lines written so far (the
      reason fixes a line's text). */
  datatype StatsState = StatsState(counters: Counters, policy: FailPolicy, logged: set<RejectReason>, lines: seq<RejectReason>)

  const ZERO := Counters(0, 0, [0, 0, 0, 0, 0, 0, 0], 0, 0, 0, 0)
  const INITIAL := StatsState(ZERO, Silent, {}, [])

  function Index(r: RejectReason): (i: nat)
    ensures i < REASON_COUNT
  {
    match r
    case Plaintext => 0
    case TooShort => 1
    case BadFlags => 2
    case LenMismatch => 3
    case NoPeer => 4
    case NoEpoch => 5
    case AuthFailed => 6
  }

  function FromCodec(e: Codec.CodecError): RejectReason {
    match e
    case TooShort(_) => TooShort
    case InvalidFlags(_) => BadFlags
  }

  /** `u64::saturating_add(1)`. */
  function Bump(x: U64): U64 {
    if x == U64_MAX then x else x + 1
  }

  // ----- meaning of each entry point -----

  function RxOk(c: Counters): Counters {
    c.(rxTotal := Bump(c.rxTotal), rxOk := Bump(c.rxOk))
  }

  function RxDrop(c: Counters): Counters {
    c.(rxTotal := Bump(c.rxTotal))
  }

  function TxSealed(c: Counters, mode: Codec.Mode): Counters {
    if mode.Standard? then c.(txTotal := Bump(c.txTotal), txStandard := Bump(c.txStandard))
    else c.(txTotal := Bump(c.txTotal), txDek := Bump(c.txDek))
  }

  function TxOversize(c: Counters): Counters {
    c.(txOversize := Bump(c.txOversize))
  }

  function CountReject(c: Counters, r: RejectReason): Counters {
    c.(rxRejects := c.rxRejects[Index(r) := Bump(c.rxRejects[Index(r)])])
  }

  /** The policy decision for one rejection: whether to write a line, and the memo afterwards. */
  function Decide(policy: FailPolicy, logged: set<RejectReason>, r: RejectReason): (bool, set<RejectReason>) {
    match policy
    case Silent => (false, logged)
    case Verbose => (true, logged)
    case LogOnce => (r !in logged, logged + {r})
  }

  /** `record_reject`: count, then write a line if the policy and the memo say so. */
  function Reject(s: StatsState, r: RejectReason): StatsState {
    var (emit, logged) := Decide(s.policy, s.logged, r);
    StatsState(CountReject(s.counters, r), s.policy, logged, if emit then s.lines + [r] else s.lines)
  }

  function SetPolicy(s: StatsState, p: FailPolicy): StatsState {
    if p.LogOnce? then s.(policy := p, logged := {}) else s.(policy := p)
  }

  function ResetMemo(s: StatsState): StatsState {
    s.(logged := {})
  }

  // ----- the 64-bit memo mask -----

  function Bit(r: RejectReason): bv64 {
    (1 as bv64) << Index(r)
  }

  /** The set of reasons a memo mask stands for. */
  function Memo(mask: bv64): set<RejectReason> {
    set r: RejectReason | mask & Bit(r) != 0
  }

  lemma MemoEmpty()
    ensures Memo(0) == {}
  {
  }

  /** Setting a reason's bit adds that reason to the set and no other. */
  lemma MemoAdd(mask: bv64, r: RejectReason)
    ensures Memo(mask | Bit(r)) == Memo(mask) + {r}
  {
    forall q: RejectReason
      ensures (mask | Bit(r)) & Bit(q) != 0 <==> mask & Bit(q) != 0 || q == r
    {
      BitsDisjoint(mask, r, q);
    }
  }

  lemma MemoHas(mask: bv64, r: RejectReason)
    ensures r in Memo(mask) <==> mask & Bit(r) != 0
    ensures r in Memo(mask) ==> Memo(mask) + {r} == Memo(mask)
  {
  }

  lemma BitsDisjoint(mask: bv64, r: RejectReason, q: RejectReason)
    ensures (mask | Bit(r)) & Bit(q) != 0 <==> mask & Bit(q) != 0 || q == r
  {
  }

  // ----- the cells themselves -----

  class Cells {
    var counters: Counters
    var policy: FailPolicy
    var logged: bv64
    var lines: seq<RejectReason>

    ghost function State(): StatsState
      reads this
    {
      StatsState(counters, policy, Memo(logged), lines)
    }

    constructor ()
      ensures State() == INITIAL
    {
      counters, policy, logged, lines := ZERO, Silent, 0, [];
      MemoEmpty();
    }

    method RecordRxOk()
      modifies this
      ensures State() == old(State()).(counters := RxOk(old(counters)))
    {
      var s := counters;
      s := s.(rxTotal := Bump(s.rxTotal));
      s := s.(rxOk := Bump(s.rxOk));
      counters := s;
    }

    method RecordRxDrop()
      modifies this
      ensures State() == old(State()).(counters := RxDrop(old(counters)))
    {
      counters := counters.(rxTotal := Bump(counters.rxTotal));
    }

    method RecordTxSealed(mode: Codec.Mode)
      modifies this
      ensures State() == old(State()).(counters := TxSealed(old(counters), mode))
    {
      var s := counters;
      s := s.(txTotal := Bump(s.txTotal));
      match mode {
        case Standard => s := s.(txStandard := Bump(s.txStandard));
        case Dek => s := s.(txDek := Bump(s.txDek));
      }
      counters := s;
    }

    method RecordTxOversize()
      modifies this
      ensures State() == old(State()).(counters := TxOversize(old(counters)))
    {
      counters := counters.(txOversize := Bump(counters.txOversize));
    }

    /** Under log_once this tests and sets the reason's bit. */
    method ShouldLog(r: RejectReason) returns (emit: bool)
      modifies this`logged
      ensures (emit, Memo(logged)) == Decide(policy, Memo(old(logged)), r)
    {
      match policy {
        case Silent => return false;
        case Verbose => return true;
        case LogOnce =>
          emit := TestAndSet(r);
      }
    }

    /** One bit per reason. */
    method TestAndSet(r: RejectReason) returns (isNew: bool)
      modifies this`logged
      ensures isNew <==> r !in Memo(old(logged))
      ensures Memo(logged) == Memo(old(logged)) + {r}
    {
      var bit := Bit(r);
      MemoAdd(logged, r);
      MemoHas(logged, r);
      if logged & bit != 0 {
        return false;
      }
      logged := logged | bit;
      return true;
    }

    method RecordReject(r: RejectReason)
      modifies this
      ensures State() == Reject(old(State()), r)
    {
      counters := CountReject(counters, r);
      var emit := ShouldLog(r);
      if emit {
        lines := lines + [r];
      }
    }

    method SelectPolicy(p: FailPolicy)
      modifies this
      ensures State() == SetPolicy(old(State()), p)
    {
      policy := p;
      if p == LogOnce {
        ResetLogOnceMemo();
      }
    }

    method ResetLogOnceMemo()
      modifies this
      ensures State() == ResetMemo(old(State()))
    {
      logged := 0;
      MemoEmpty();
    }

    /** `reject_sum`: the saturating sum of the seven counters. */
    method RejectSum() returns (sum: U64)
      ensures sum == Min(U64_MAX, Sum(counters.rxRejects))
    {
      sum := 0;
      var i := 0;
      while i < REASON_COUNT
        invariant 0 <= i <= REASON_COUNT
        invariant sum == Min(U64_MAX, Sum(counters.rxRejects[..i]))
      {
        assert counters.rxRejects[..i + 1][..i] == counters.rxRejects[..i];
        sum := Min(U64_MAX, (sum as int) + counters.rxRejects[i]);
        i := i + 1;
      }
      assert counters.rxRejects[..i] == counters.rxRejects;
    }
  }

  // ----- the counter invariant -----

  function Sum(s: seq<U64>): nat {
    if s == [] then 0 else Sum(s[..|s| - 1]) + s[|s| - 1]
  }

  lemma {:induction false} SumUpdated(s: seq<U64>, i: nat, v: U64)
    requires i < |s|
    ensures Sum(s[i := v]) == Sum(s) - s[i] + v
  {
    var n := |s| - 1;
    if i < n {
      SumUpdated(s[..n], i, v);
      assert s[i := v][..n] == s[..n][i := v];
    } else {
      assert s[i := v][..n] == s[..n];
    }
  }

  lemma {:induction false} SumBounds(s: seq<U64>, i: nat)
    requires i < |s|
    ensures s[i] <= Sum(s)
  {
    var n := |s| - 1;
    if i < n {
      SumBounds(s[..n], i);
    }
  }

  /** Every received frame is counted once and lands in one place; likewise every sealed frame. */
  ghost predicate Balanced(c: Counters) {
    && c.rxTotal == Min(U64_MAX, c.rxOk + Sum(c.rxRejects))
    && c.txTotal == Min(U64_MAX, c.txStandard + c.txDek)
  }

  /** A drop records its reason and joins the total, in either order, and the balance survives saturation. */
  lemma DropKeepsBalance(c: Counters, r: RejectReason)
    requires Balanced(c)
    ensures Balanced(RxDrop(CountReject(c, r)))
    ensures RxDrop(CountReject(c, r)) == CountReject(RxDrop(c), r)
  {
    SumUpdated(c.rxRejects, Index(r), Bump(c.rxRejects[Index(r)]));
    SumBounds(c.rxRejects, Index(r));
  }

  /** No counter of `d` is below that of `c`. */
  ghost predicate AtLeast(d: Counters, c: Counters) {
    && d.rxTotal >= c.rxTotal && d.rxOk >= c.rxOk
    && (forall i :: 0 <= i < REASON_COUNT ==> d.rxRejects[i] >= c.rxRejects[i])
    && d.txTotal >= c.txTotal && d.txStandard >= c.txStandard
    && d.txDek >= c.txDek && d.txOversize >= c.txOversize
  }

  /** The first occurrence of each reason of `rs` that is not in `seen`, in order. */
  function Firsts(rs: seq<RejectReason>, seen: set<RejectReason>): seq<RejectReason> {
    if rs == [] then []
    else if rs[0] in seen then Firsts(rs[1..], seen)
    else [rs[0]] + Firsts(rs[1..], seen + {rs[0]})
  }

  /** `Firsts` lists exactly the new reasons, each once. */
  lemma {:induction false} FirstsAreDistinct(rs: seq<RejectReason>, seen: set<RejectReason>)
    ensures var f := Firsts(rs, seen);
            && (forall i, j :: 0 <= i < j < |f| ==> f[i] != f[j])
            && (forall r :: r in f <==> r in rs && r !in seen)
  {
    if rs != [] {
      var next := if rs[0] in seen then seen else seen + {rs[0]};
      FirstsAreDistinct(rs[1..], next);
      assert rs == [rs[0]] + rs[1..];
    }
  }

  /** What a run of drops writes: nothing, everything, or each new reason once. */
  function Written(policy: FailPolicy, logged: set<RejectReason>, rs: seq<RejectReason>): seq<RejectReason> {
    match policy
    case Silent => []
    case Verbose => rs
    case LogOnce => Firsts(rs, logged)
  }

  lemma WrittenStep(policy: FailPolicy, logged: set<RejectReason>, rs: seq<RejectReason>)
    requires rs != []
    ensures var (emit, next) := Decide(policy, logged, rs[0]);
            Written(policy, logged, rs) == (if emit then [rs[0]] else []) + Written(policy, next, rs[1..])
  {
    assert rs == [rs[0]] + rs[1..];
    assert rs[0] in logged ==> logged + {rs[0]} == logged;
  }
}
