/** Resource domains: bounded accounting for objects, capabilities and memory, with nested budgets. */
module Resources {
  import opened Common
  import opened Abi

  datatype ResourceError = ObjectLimit | CapabilityLimit | MemoryLimit | AccountingUnderflow | StillReferenced

  datatype Amounts = Amounts(objects: nat, capabilities: nat, memory: nat) {
    ghost function Plus(other: Amounts): Amounts {
      Amounts(objects + other.objects, capabilities + other.capabilities, memory + other.memory)
    }

    predicate Within(other: Amounts) {
      objects <= other.objects && capabilities <= other.capabilities && memory <= other.memory
    }

    /** The counters are 32, 32 and 64 bits wide. */
    predicate Fits() {
      objects <= U32_MAX && capabilities <= U32_MAX && memory < U64_SPAN
    }
  }

  const Zero: Amounts := Amounts(0, 0, 0)

  datatype Account = Account(
    id: ObjectId, parent: Option<ObjectId>, limits: Amounts, usage: Amounts,
    processRefs: nat, childRefs: nat, active: bool)

  // ---------- what each operation means for the account ----------

  ghost function Charged(a: Account, amount: Amounts): Account {
    a.(usage := a.usage.Plus(amount))
  }

  ghost predicate CanCharge(a: Account, amount: Amounts) {
    a.usage.Plus(amount).Within(a.limits)
  }

  ghost function Released(a: Account, amount: Amounts): Account
    requires amount.Within(a.usage)
  {
    a.(usage := Amounts(a.usage.objects - amount.objects, a.usage.capabilities - amount.capabilities,
                        a.usage.memory - amount.memory))
  }

  /** A domain that owns nothing and to which nothing refers. */
  predicate Idle(a: Account) {
    a.processRefs == 0 && a.usage == Zero && a.childRefs == 0
  }

  ghost predicate CanRefund(child: Account, parent: Account) {
    child.parent == Some(parent.id) && child.active && Idle(child)
  }

  class ResourceDomain {
    const id: ObjectId
    const parent: Option<ObjectId>
    const limits: Amounts
    var objects: nat
    var capabilities: nat
    var memory: nat
    var processRefs: nat
    var childRefs: nat
    var active: bool

    ghost predicate Valid()
      reads this
    {
      limits.Fits() && Amounts(objects, capabilities, memory).Within(limits) && childRefs <= U32_MAX
    }

    ghost function View(): Account
      reads this
    {
      Account(id, parent, limits, Amounts(objects, capabilities, memory), processRefs, childRefs, active)
    }

    constructor (id: ObjectId, limits: Amounts)
      requires limits.Fits()
      ensures Valid() && View() == Account(id, None, limits, Zero, 0, 0, false)
    {
      this.id, this.parent, this.limits := id, None, limits;
      objects, capabilities, memory := 0, 0, 0;
      processRefs, childRefs, active := 0, 0, false;
    }

    constructor Child(id: ObjectId, parent: ObjectId, limits: Amounts)
      requires limits.Fits()
      ensures Valid() && View() == Account(id, Some(parent), limits, Zero, 0, 0, true)
    {
      this.id, this.parent, this.limits := id, Some(parent), limits;
      objects, capabilities, memory := 0, 0, 0;
      processRefs, childRefs, active := 0, 0, true;
    }

    method ChargeCapability() returns (r: Result<(), ResourceError>)
      requires Valid()
      modifies this
      ensures Valid()
      ensures r.Ok? <==> CanCharge(old(View()), Amounts(0, 1, 0))
      ensures r.Err? ==> r.error == CapabilityLimit
      ensures View() == if r.Ok? then Charged(old(View()), Amounts(0, 1, 0)) else old(View())
    {
      if capabilities >= limits.capabilities {
        return Err(CapabilityLimit);
      }
      capabilities := capabilities + 1;
      return Ok(());
    }

    method ReleaseCapability() returns (r: Result<(), ResourceError>)
      requires Valid()
      modifies this
      ensures Valid()
      ensures r.Ok? <==> Amounts(0, 1, 0).Within(old(View()).usage)
      ensures r.Err? ==> r.error == AccountingUnderflow
      ensures View() == if r.Ok? then Released(old(View()), Amounts(0, 1, 0)) else old(View())
    {
      if capabilities == 0 {
        return Err(AccountingUnderflow);
      }
      capabilities := capabilities - 1;
      return Ok(());
    }

    method ChargeObject() returns (r: Result<(), ResourceError>)
      requires Valid()
      modifies this
      ensures Valid()
      ensures r.Ok? <==> CanCharge(old(View()), Amounts(1, 0, 0))
      ensures r.Err? ==> r.error == ObjectLimit
      ensures View() == if r.Ok? then Charged(old(View()), Amounts(1, 0, 0)) else old(View())
    {
      if objects >= limits.objects {
        return Err(ObjectLimit);
      }
      objects := objects + 1;
      return Ok(());
    }

    method ReleaseObject() returns (r: Result<(), ResourceError>)
      requires Valid()
      modifies this
      ensures Valid()
      ensures r.Ok? <==> Amounts(1, 0, 0).Within(old(View()).usage)
      ensures r.Err? ==> r.error == AccountingUnderflow
      ensures View() == if r.Ok? then Released(old(View()), Amounts(1, 0, 0)) else old(View())
    {
      if objects == 0 {
        return Err(AccountingUnderflow);
      }
      objects := objects - 1;
      return Ok(());
    }

    /**
      Reserve a whole child budget. All or nothing, with one exception: when the child counter itself
      is exhausted the budget has already been charged and the error leaves it charged.
    */
    static method NewChild(id: ObjectId, parent: ResourceDomain, budget: Amounts)
      returns (r: Result<ResourceDomain, ResourceError>)
      requires parent.Valid() && budget.Fits()
      modifies parent
      ensures parent.Valid()
      ensures r.Ok? <==> CanCharge(old(parent.View()), budget) && old(parent.childRefs) < U32_MAX
      ensures r.Ok? ==>
                && fresh(r.value) && r.value.Valid()
                && r.value.View() == Account(id, Some(parent.id), budget, Zero, 0, 0, true)
                && parent.View() == Charged(old(parent.View()), budget).(childRefs := old(parent.childRefs) + 1)
      ensures r.Err? ==>
                parent.View() == if CanCharge(old(parent.View()), budget) then Charged(old(parent.View()), budget)
                                 else old(parent.View())
      ensures r.Err? ==> r.error == Exhausted(old(parent.View()).usage.Plus(budget), parent.limits)
    {
      var nextObjects := parent.objects + budget.objects;
      if nextObjects > U32_MAX {
        return Err(ObjectLimit);
      }
      var nextCapabilities := parent.capabilities + budget.capabilities;
      if nextCapabilities > U32_MAX {
        return Err(CapabilityLimit);
      }
      var nextMemory := parent.memory + budget.memory;
      if nextMemory >= U64_SPAN {
        return Err(MemoryLimit);
      }
      if nextObjects > parent.limits.objects {
        return Err(ObjectLimit);
      }
      if nextCapabilities > parent.limits.capabilities {
        return Err(CapabilityLimit);
      }
      if nextMemory > parent.limits.memory {
        return Err(MemoryLimit);
      }
      parent.objects := nextObjects;
      parent.capabilities := nextCapabilities;
      parent.memory := nextMemory;
      if parent.childRefs == U32_MAX {
        return Err(ObjectLimit);
      }
      parent.childRefs := parent.childRefs + 1;
      var child := new ResourceDomain.Child(id, parent.id, budget);
      return Ok(child);
    }

    /** Return an idle child's budget. The counters are reduced one by one; a later one may underflow. */
    method RefundToParent(owner: ResourceDomain) returns (r: Result<(), ResourceError>)
      requires Valid() && owner.Valid() && this != owner
      modifies this, owner
      ensures Valid() && owner.Valid()
      ensures r.Ok? <==> CanRefund(old(View()), old(owner.View())) && limits.Within(old(owner.View()).usage)
                         && old(owner.childRefs) > 0
      ensures r.Ok? ==>
                && View() == old(View()).(active := false)
                && owner.View() == Released(old(owner.View()), limits).(childRefs := old(owner.childRefs) - 1)
      ensures r.Err? ==> View() == old(View())
      ensures r.Err? && !CanRefund(old(View()), old(owner.View())) ==>
                r.error == StillReferenced && owner.View() == old(owner.View())
      ensures r.Err? && CanRefund(old(View()), old(owner.View())) ==> r.error == AccountingUnderflow
    {
      if parent != Some(owner.id) {
        return Err(StillReferenced);
      }
      if !active || !(processRefs == 0 && objects == 0 && capabilities == 0 && memory == 0 && childRefs == 0) {
        return Err(StillReferenced);
      }
      if owner.objects < limits.objects {
        return Err(AccountingUnderflow);
      }
      owner.objects := owner.objects - limits.objects;
      if owner.capabilities < limits.capabilities {
        return Err(AccountingUnderflow);
      }
      owner.capabilities := owner.capabilities - limits.capabilities;
      if owner.memory < limits.memory {
        return Err(AccountingUnderflow);
      }
      owner.memory := owner.memory - limits.memory;
      if owner.childRefs == 0 {
        return Err(AccountingUnderflow);
      }
      owner.childRefs := owner.childRefs - 1;
      active := false;
      return Ok(());
    }
  }

  /** The first quantity found short: overflow of the counters is looked at before the limits. */
  ghost function Exhausted(needed: Amounts, limits: Amounts): ResourceError {
    if needed.objects > U32_MAX then ObjectLimit
    else if needed.capabilities > U32_MAX then CapabilityLimit
    else if needed.memory >= U64_SPAN then MemoryLimit
    else if needed.objects > limits.objects then ObjectLimit
    else if needed.capabilities > limits.capabilities then CapabilityLimit
    else if needed.memory > limits.memory then MemoryLimit
    else ObjectLimit
  }

  // ---------- the whole hierarchy ----------

  /**
    All domains ever created, numbered in creation order. Besides the domain's own fields an entry says
    what the domain was charged for directly, its own objects, capability slots and memory, and what
    failed creations of children have left charged to it.
  */
  datatype Entry = Entry(parent: Option<nat>, limits: Amounts, usage: Amounts, processRefs: nat, childRefs: nat,
                         active: bool, direct: Amounts, leaked: Amounts)

  type Ledger = seq<Entry>

  /** The quantities a domain accounts for; references from child domains are counted like the rest. */
  datatype Kind = Objects | Capabilities | Memory | ChildRefs

  ghost function Part(a: Amounts, refs: nat, kind: Kind): nat {
    match kind
    case Objects => a.objects
    case Capabilities => a.capabilities
    case Memory => a.memory
    case ChildRefs => refs
  }

  ghost function Sum(s: seq<nat>): nat {
    if s == [] then 0 else Sum(s[..|s| - 1]) + s[|s| - 1]
  }

  lemma {:induction false} SumUpdate(s: seq<nat>, i: nat, v: nat)
    requires i < |s|
    ensures Sum(s[i := v]) + s[i] == Sum(s) + v
  {
    var n := |s| - 1;
    if i < n {
      SumUpdate(s[..n], i, v);
      assert s[i := v][..n] == s[..n][i := v];
    } else {
      assert s[i := v][..n] == s[..n];
    }
  }

  lemma SumAppend(s: seq<nat>, v: nat)
    ensures Sum(s + [v]) == Sum(s) + v
  {
    assert (s + [v])[..|s|] == s;
  }

  lemma {:induction false} SumZero(s: seq<nat>)
    requires forall i :: 0 <= i < |s| ==> s[i] == 0
    ensures Sum(s) == 0
  {
    if s != [] {
      SumZero(s[..|s| - 1]);
    }
  }

  lemma {:induction false} SumWithin(s: seq<nat>, t: seq<nat>)
    requires |s| == |t| && forall i :: 0 <= i < |s| ==> s[i] <= t[i]
    ensures Sum(s) <= Sum(t)
  {
    if s != [] {
      SumWithin(s[..|s| - 1], t[..|s| - 1]);
    }
  }

  lemma {:induction false} SumPointwise(s: seq<nat>, t: seq<nat>, u: seq<nat>)
    requires |s| == |t| == |u| && forall i :: 0 <= i < |s| ==> u[i] == s[i] + t[i]
    ensures Sum(u) == Sum(s) + Sum(t)
  {
    if s != [] {
      SumPointwise(s[..|s| - 1], t[..|s| - 1], u[..|s| - 1]);
    }
  }

  /** What entry `e` takes out of domain `d`: its budget and one reference, while it is an active child. */
  ghost function Share(e: Entry, d: nat, kind: Kind): nat {
    if e.active && e.parent == Some(d) then Part(e.limits, 1, kind) else 0
  }

  ghost function Shares(l: Ledger, d: nat, kind: Kind): (r: seq<nat>)
    ensures |r| == |l| && forall i :: 0 <= i < |l| ==> r[i] == Share(l[i], d, kind)
  {
    seq(|l|, i requires 0 <= i < |l| => Share(l[i], d, kind))
  }

  ghost predicate Exact(l: Ledger, d: nat, kind: Kind)
    requires d < |l|
  {
    Part(l[d].usage, l[d].childRefs, kind) == Part(l[d].direct, 0, kind) + Part(l[d].leaked, 0, kind) + Sum(Shares(l, d, kind))
  }

  /** The domain is charged for what it holds and for its active children's budgets, and for nothing else. */
  ghost predicate Tight(l: Ledger, d: nat, kind: Kind)
    requires d < |l|
  {
    Part(l[d].usage, l[d].childRefs, kind) == Part(l[d].direct, 0, kind) + Sum(Shares(l, d, kind))
  }

  ghost predicate Bounded(l: Ledger, d: nat)
    requires d < |l|
  {
    && l[d].usage.Within(l[d].limits) && l[d].limits.Fits() && l[d].childRefs <= U32_MAX
    && (l[d].parent.Some? ==> l[d].parent.value < d)
    && (l[d].active ==> l[d].parent.Some?)
  }

  /** Each domain's usage is its own charges, its leaks and its active children's budgets, within its limit. */
  ghost predicate Consistent(l: Ledger) {
    && (forall d, kind {:trigger Exact(l, d, kind)} :: 0 <= d < |l| ==> Exact(l, d, kind))
    && (forall d {:trigger Bounded(l, d)} :: 0 <= d < |l| ==> Bounded(l, d))
  }

  datatype LedgerOp =
    | OpRoot(limits: Amounts)
    | OpCharge(d: nat, amount: Amounts)
    | OpRelease(d: nat, amount: Amounts)
    | OpChild(parent: nat, budget: Amounts)
    | OpRefund(d: nat)
    | OpProcessRefs(d: nat, refs: nat)

  /**
    The cases in which an operation changes something; a release names something that was charged. A child
    whose budget fits is refused when the count of children is at its maximum, but its budget stays charged.
  */
  ghost predicate Allowed(l: Ledger, op: LedgerOp) {
    match op
    case OpRoot(limits) => limits.Fits()
    case OpCharge(d, amount) => d < |l| && l[d].usage.Plus(amount).Within(l[d].limits)
    case OpRelease(d, amount) => d < |l| && amount.Within(l[d].direct) && amount.Within(l[d].usage)
    case OpChild(p, budget) =>
      p < |l| && budget.Fits() && l[p].usage.Plus(budget).Within(l[p].limits) && l[p].childRefs <= U32_MAX
    case OpRefund(d) =>
      d < |l| && l[d].active && l[d].processRefs == 0 && l[d].usage == Zero && l[d].childRefs == 0
      && l[d].parent.Some? && l[d].parent.value < |l|
      && l[d].limits.Within(l[l[d].parent.value].usage) && l[l[d].parent.value].childRefs > 0
    case OpProcessRefs(d, refs) => d < |l|
  }

  ghost function Minus(a: Amounts, b: Amounts): Amounts
    requires b.Within(a)
  {
    Amounts(a.objects - b.objects, a.capabilities - b.capabilities, a.memory - b.memory)
  }

  ghost function Post(l: Ledger, op: LedgerOp): Ledger
    requires Allowed(l, op)
  {
    match op
    case OpRoot(limits) => l + [Entry(None, limits, Zero, 0, 0, false, Zero, Zero)]
    case OpCharge(d, amount) =>
      l[d := l[d].(usage := l[d].usage.Plus(amount), direct := l[d].direct.Plus(amount))]
    case OpRelease(d, amount) =>
      l[d := l[d].(usage := Minus(l[d].usage, amount), direct := Minus(l[d].direct, amount))]
    case OpChild(p, budget) =>
      if l[p].childRefs < U32_MAX then
        l[p := l[p].(usage := l[p].usage.Plus(budget), childRefs := l[p].childRefs + 1)]
        + [Entry(Some(p), budget, Zero, 0, 0, true, Zero, Zero)]
      else
        l[p := l[p].(usage := l[p].usage.Plus(budget), leaked := l[p].leaked.Plus(budget))]
    case OpRefund(d) =>
      var p := l[d].parent.value;
      l[p := l[p].(usage := Minus(l[p].usage, l[d].limits), childRefs := l[p].childRefs - 1)]
       [d := l[d].(active := false)]
    case OpProcessRefs(d, refs) => l[d := l[d].(processRefs := refs)]
  }

  /** With exact accounting a refund cannot fail for want of a charge: the underflow checks never fire. */
  lemma RefundNeverUnderflows(l: Ledger, d: nat)
    requires Consistent(l) && d < |l| && l[d].active
    ensures l[d].parent.Some? && l[d].parent.value < |l|
    ensures l[d].limits.Within(l[l[d].parent.value].usage) && l[l[d].parent.value].childRefs > 0
  {
    assert Bounded(l, d);
    var p := l[d].parent.value;
    forall kind: Kind
      ensures Part(l[d].limits, 1, kind) <= Part(l[p].usage, l[p].childRefs, kind)
    {
      assert Exact(l, p, kind);
      SumUpdate(Shares(l, p, kind), d, 0);
    }
    assert Part(l[d].limits, 1, Objects) <= Part(l[p].usage, l[p].childRefs, Objects);
    assert Part(l[d].limits, 1, Capabilities) <= Part(l[p].usage, l[p].childRefs, Capabilities);
    assert Part(l[d].limits, 1, Memory) <= Part(l[p].usage, l[p].childRefs, Memory);
    assert Part(l[d].limits, 1, ChildRefs) <= Part(l[p].usage, l[p].childRefs, ChildRefs);
  }

  lemma PostConsistent(l: Ledger, op: LedgerOp)
    requires Consistent(l) && Allowed(l, op)
    ensures Consistent(Post(l, op))
  {
    var m := Post(l, op);
    forall d, kind | 0 <= d < |m|
      ensures Exact(m, d, kind)
    {
      match op
      case OpRoot(_) => PostAppendExact(l, op, d, kind);
      case OpChild(p, _) =>
        if l[p].childRefs < U32_MAX {
          PostAppendExact(l, op, d, kind);
        } else {
          PostSimpleExact(l, op, p, d, kind);
        }
      case OpRefund(_) => PostRefundExact(l, op.d, d, kind);
      case OpCharge(_, _) => PostSimpleExact(l, op, op.d, d, kind);
      case OpRelease(_, _) => PostSimpleExact(l, op, op.d, d, kind);
      case OpProcessRefs(_, _) => PostSimpleExact(l, op, op.d, d, kind);
    }
    forall d | 0 <= d < |m|
      ensures Bounded(m, d)
    {
      assert d < |l| ==> Bounded(l, d);
    }
  }

  lemma SharesKept(l: Ledger, i: nat, e: Entry, d: nat, kind: Kind)
    requires i < |l| && e.active == l[i].active && e.parent == l[i].parent && e.limits == l[i].limits
    ensures Shares(l[i := e], d, kind) == Shares(l, d, kind)
  {
  }

  /** The operations that touch one entry. */
  ghost predicate Simple(l: Ledger, op: LedgerOp, at: nat) {
    && Allowed(l, op) && at < |l|
    && (if op.OpChild? then at == op.parent && l[at].childRefs == U32_MAX
        else (op.OpCharge? || op.OpRelease? || op.OpProcessRefs?) && at == op.d)
  }

  /** They change what is charged and what it is charged for alike. */
  ghost predicate Balanced(e: Entry, e': Entry, kind: Kind) {
    && e'.parent == e.parent && e'.limits == e.limits && e'.active == e.active && e'.childRefs == e.childRefs
    && Part(e'.usage, 0, kind) + Part(e.direct, 0, kind) + Part(e.leaked, 0, kind)
       == Part(e.usage, 0, kind) + Part(e'.direct, 0, kind) + Part(e'.leaked, 0, kind)
  }

  lemma SimpleIsBalanced(l: Ledger, op: LedgerOp, at: nat, kind: Kind)
    requires Simple(l, op, at)
    ensures |Post(l, op)| == |l| && Post(l, op) == l[at := Post(l, op)[at]] && Balanced(l[at], Post(l, op)[at], kind)
  {
    match kind {
      case Objects =>
      case Capabilities =>
      case Memory =>
      case ChildRefs =>
    }
  }

  lemma PostSimpleExact(l: Ledger, op: LedgerOp, at: nat, d: nat, kind: Kind)
    requires Consistent(l) && Simple(l, op, at) && d < |l|
    ensures d < |Post(l, op)| && Exact(Post(l, op), d, kind)
  {
    hide Sum, Shares, Post, Allowed, Consistent, Bounded;
    SimpleIsBalanced(l, op, at, kind);
    ExactAt(l, d, kind);
    SharesKept(l, at, Post(l, op)[at], d, kind);
  }

  lemma ExactAt(l: Ledger, d: nat, kind: Kind)
    requires Consistent(l) && d < |l|
    ensures Exact(l, d, kind)
  {
  }

  ghost predicate SameShares(l: Ledger, m: Ledger) {
    |l| <= |m| && forall i :: 0 <= i < |l| ==> m[i].active == l[i].active && m[i].parent == l[i].parent && m[i].limits == l[i].limits
  }

  /** One more domain adds its share. */
  lemma AppendedShares(l: Ledger, m: Ledger, d: nat, kind: Kind)
    requires |m| == |l| + 1 && SameShares(l, m)
    ensures Sum(Shares(m, d, kind)) == Sum(Shares(l, d, kind)) + Share(m[|l|], d, kind)
  {
    assert Shares(m, d, kind) == Shares(l, d, kind) + [Share(m[|l|], d, kind)];
    SumAppend(Shares(l, d, kind), Share(m[|l|], d, kind));
  }

  /** A new domain has no children. */
  lemma NoShares(l: Ledger, m: Ledger, kind: Kind)
    requires Consistent(l) && |m| == |l| + 1 && SameShares(l, m) && (m[|l|].parent.Some? ==> m[|l|].parent.value < |l|)
    ensures Sum(Shares(m, |l|, kind)) == 0
  {
    forall i | 0 <= i < |m|
      ensures Shares(m, |l|, kind)[i] == 0
    {
      if i < |l| {
        assert Bounded(l, i);
      }
    }
    SumZero(Shares(m, |l|, kind));
  }

  lemma PostAppendExact(l: Ledger, op: LedgerOp, d: nat, kind: Kind)
    requires Consistent(l) && Allowed(l, op) && (op.OpRoot? || (op.OpChild? && l[op.parent].childRefs < U32_MAX))
    requires d < |Post(l, op)|
    ensures Exact(Post(l, op), d, kind)
  {
    hide Sum, Shares, Consistent, Bounded;
    var m := Post(l, op);
    if d < |l| {
      ExactAt(l, d, kind);
      AppendedShares(l, m, d, kind);
    } else {
      NoShares(l, m, kind);
    }
  }

  lemma PostRefundExact(l: Ledger, c: nat, d: nat, kind: Kind)
    requires Consistent(l) && Allowed(l, OpRefund(c)) && d < |l|
    ensures Exact(Post(l, OpRefund(c)), d, kind)
  {
    var m := Post(l, OpRefund(c));
    var p := l[c].parent.value;
    assert Exact(l, d, kind) && Bounded(l, c);
    if d == p {
      assert Shares(m, d, kind) == Shares(l, d, kind)[c := 0];
      SumUpdate(Shares(l, d, kind), c, 0);
    } else {
      assert Shares(m, d, kind) == Shares(l, d, kind);
    }
  }

  ghost predicate Follows(l: Ledger, op: LedgerOp, m: Ledger) {
    Allowed(l, op) && m == Post(l, op)
  }

  ghost predicate IsHistory(ledgers: seq<Ledger>, ops: seq<LedgerOp>) {
    && |ledgers| == |ops| + 1
    && ledgers[0] == []
    && (forall i :: 0 <= i < |ops| ==> Follows(ledgers[i], ops[i], ledgers[i + 1]))
  }

  /** After every history each usage is made up of direct charges, leaks and active children's budgets. */
  lemma {:induction false} AccountingExact(ledgers: seq<Ledger>, ops: seq<LedgerOp>, i: nat)
    requires IsHistory(ledgers, ops) && i < |ledgers|
    ensures Consistent(ledgers[i])
  {
    if i > 0 {
      AccountingExact(ledgers, ops, i - 1);
      assert Follows(ledgers[i - 1], ops[i - 1], ledgers[i]);
      PostConsistent(ledgers[i - 1], ops[i - 1]);
    }
  }

  // ---------- when accounting is exact ----------

  /** The operation is a creation of a child of `d` that fails at the maximum count and leaves a charge behind. */
  ghost predicate Leaks(l: Ledger, op: LedgerOp, d: nat, kind: Kind) {
    op.OpChild? && op.parent == d && d < |l| && l[d].childRefs == U32_MAX && Part(op.budget, 0, kind) > 0
  }

  ghost predicate LeakedBefore(ledgers: seq<Ledger>, ops: seq<LedgerOp>, i: nat, d: nat, kind: Kind)
    requires |ledgers| == |ops| + 1
  {
    exists t :: 0 <= t < i && t < |ops| && Leaks(ledgers[t], ops[t], d, kind)
  }

  lemma PostLeaks(l: Ledger, op: LedgerOp, d: nat, kind: Kind)
    requires Allowed(l, op)
    ensures |l| <= |Post(l, op)|
    ensures d < |l| ==>
              Part(Post(l, op)[d].leaked, 0, kind) == Part(l[d].leaked, 0, kind) + if Leaks(l, op, d, kind) then Part(op.budget, 0, kind) else 0
    ensures |l| <= d < |Post(l, op)| ==> Part(Post(l, op)[d].leaked, 0, kind) == 0
  {
  }

  lemma {:induction false} LeakedIff(ledgers: seq<Ledger>, ops: seq<LedgerOp>, i: nat, d: nat, kind: Kind)
    requires IsHistory(ledgers, ops) && i < |ledgers|
    ensures (d < |ledgers[i]| && Part(ledgers[i][d].leaked, 0, kind) > 0) <==> LeakedBefore(ledgers, ops, i, d, kind)
  {
    hide Post, Allowed, Part;
    if i > 0 {
      LeakedIff(ledgers, ops, i - 1, d, kind);
      assert Follows(ledgers[i - 1], ops[i - 1], ledgers[i]);
      PostLeaks(ledgers[i - 1], ops[i - 1], d, kind);
      if Leaks(ledgers[i - 1], ops[i - 1], d, kind) {
        assert LeakedBefore(ledgers, ops, i, d, kind);
      } else if LeakedBefore(ledgers, ops, i, d, kind) {
        var t :| 0 <= t < i && t < |ops| && Leaks(ledgers[t], ops[t], d, kind);
        assert t < i - 1;
      }
    }
  }

  /**
    In every state of every history a domain is charged exactly for what it holds and for its active
    children's budgets if and only if no creation of a child of it has failed at the maximum count.
  */
  lemma ExactIffNothingLeaked(ledgers: seq<Ledger>, ops: seq<LedgerOp>, i: nat, d: nat, kind: Kind)
    requires IsHistory(ledgers, ops) && i < |ledgers| && d < |ledgers[i]|
    ensures Tight(ledgers[i], d, kind) <==> !LeakedBefore(ledgers, ops, i, d, kind)
  {
    AccountingExact(ledgers, ops, i);
    assert Exact(ledgers[i], d, kind);
    LeakedIff(ledgers, ops, i, d, kind);
  }

  const Pauper: Entry := Entry(Some(0), Zero, Zero, 0, 0, true, Zero, Zero)

  ghost function Founder(n: nat): Entry {
    Entry(None, Amounts(0, 1, 0), Zero, 0, n, false, Zero, Zero)
  }

  /** A domain with `n` children that have no budget. */
  ghost function Crowd(n: nat): (l: Ledger)
    ensures |l| == n + 1 && l[0] == Founder(n) && forall i :: 1 <= i < |l| ==> l[i] == Pauper
  {
    [Founder(n)] + seq(n, _ => Pauper)
  }

  lemma CrowdNext(n: nat)
    ensures Crowd(n)[0 := Founder(n + 1)] + [Pauper] == Crowd(n + 1)
  {
    hide Crowd, Founder;
    var l, m := Crowd(n)[0 := Founder(n + 1)] + [Pauper], Crowd(n + 1);
    assert |l| == |m|;
    assert forall i :: 0 <= i < |l| ==> l[i] == m[i];
  }

  lemma ChildFollows(l: Ledger, p: nat, budget: Amounts, e: Entry)
    requires p < |l| && budget.Fits() && e.usage == l[p].usage.Plus(budget) && e.usage.Within(l[p].limits)
    requires l[p].childRefs < U32_MAX && e.childRefs == l[p].childRefs + 1
    requires e.parent == l[p].parent && e.limits == l[p].limits && e.processRefs == l[p].processRefs
    requires e.active == l[p].active && e.direct == l[p].direct && e.leaked == l[p].leaked
    ensures Follows(l, OpChild(p, budget), l[p := e] + [Entry(Some(p), budget, Zero, 0, 0, true, Zero, Zero)])
  {
    assert e == l[p].(usage := l[p].usage.Plus(budget), childRefs := l[p].childRefs + 1);
  }

  lemma PlusNothing(a: Amounts, b: Amounts)
    requires b.objects == b.capabilities == b.memory == 0
    ensures a.Plus(b) == a
  {
  }

  lemma CrowdGrows(n: nat)
    requires n < U32_MAX
    ensures Follows(Crowd(n), OpChild(0, Zero), Crowd(n + 1))
  {
    hide Crowd, Follows, Amounts.Plus;
    CrowdNext(n);
    PlusNothing(Crowd(n)[0].usage, Zero);
    ChildFollows(Crowd(n), 0, Zero, Founder(n + 1));
  }

  /** One domain, as many children as can be counted, and one more. */
  ghost function CrowdHistory(): seq<Ledger> {
    [[]] + seq(U32_MAX + 1, i requires 0 <= i => Crowd(i)) + [Post(Crowd(U32_MAX), OpChild(0, Amounts(0, 1, 0)))]
  }

  ghost function CrowdOps(): seq<LedgerOp> {
    [OpRoot(Amounts(0, 1, 0))] + seq(U32_MAX, i => OpChild(0, Zero)) + [OpChild(0, Amounts(0, 1, 0))]
  }

  /** A leak: the last capability of a domain is charged to nobody. */
  lemma LeakedCapability()
    ensures IsHistory(CrowdHistory(), CrowdOps())
    ensures var l := CrowdHistory()[U32_MAX + 2]; |l| > 0 && l[0].usage.capabilities == 1 && l[0].direct == Zero && !Tight(l, 0, Capabilities)
  {
    hide Crowd, Post, Allowed;
    var ledgers, ops := CrowdHistory(), CrowdOps();
    CrowdStarts();
    CrowdLeaks();
    forall i | 0 <= i < |ops|
      ensures Follows(ledgers[i], ops[i], ledgers[i + 1])
    {
      if 0 < i < |ops| - 1 {
        assert ledgers[i] == Crowd(i - 1) && ledgers[i + 1] == Crowd(i);
        CrowdGrows(i - 1);
      } else if i == 0 {
        assert ledgers[1] == Crowd(0);
      } else {
        assert ledgers[i] == Crowd(U32_MAX);
      }
    }
    assert Leaks(ledgers[U32_MAX + 1], ops[U32_MAX + 1], 0, Capabilities);
    ExactIffNothingLeaked(ledgers, ops, U32_MAX + 2, 0, Capabilities);
  }

  lemma CrowdStarts()
    ensures Follows([], OpRoot(Amounts(0, 1, 0)), Crowd(0))
  {
  }

  lemma CrowdLeaks()
    ensures Follows(Crowd(U32_MAX), OpChild(0, Amounts(0, 1, 0)), Post(Crowd(U32_MAX), OpChild(0, Amounts(0, 1, 0))))
    ensures Leaks(Crowd(U32_MAX), OpChild(0, Amounts(0, 1, 0)), 0, Capabilities)
    ensures var l := Post(Crowd(U32_MAX), OpChild(0, Amounts(0, 1, 0)));
      |l| > 0 && l[0].usage.capabilities == 1 && l[0].direct == Zero
  {
  }

  // ---------- nothing is spent twice ----------

  ghost function Usages(l: Ledger, kind: Kind): (r: seq<nat>)
    ensures |r| == |l| && forall i :: 0 <= i < |l| ==> r[i] == Part(l[i].usage, 0, kind)
  {
    seq(|l|, i requires 0 <= i < |l| => Part(l[i].usage, 0, kind))
  }

  /** What a domain has used up itself: what it holds and what it leaked. */
  ghost function Own(e: Entry, kind: Kind): nat {
    Part(e.direct, 0, kind) + Part(e.leaked, 0, kind)
  }

  ghost function Owns(l: Ledger, kind: Kind): (r: seq<nat>)
    ensures |r| == |l| && forall i :: 0 <= i < |l| ==> r[i] == Own(l[i], kind)
  {
    seq(|l|, i requires 0 <= i < |l| => Own(l[i], kind))
  }

  ghost function Limits(l: Ledger, kind: Kind): (r: seq<nat>)
    ensures |r| == |l| && forall i :: 0 <= i < |l| ==> r[i] == Part(l[i].limits, 0, kind)
  {
    seq(|l|, i requires 0 <= i < |l| => Part(l[i].limits, 0, kind))
  }

  ghost function Budget(e: Entry, active: bool, kind: Kind): nat {
    if e.active == active then Part(e.limits, 0, kind) else 0
  }

  /** The budgets that are carved out of a parent (`active`), or that stand on their own (not `active`). */
  ghost function Budgets(l: Ledger, active: bool, kind: Kind): (r: seq<nat>)
    ensures |r| == |l| && forall i :: 0 <= i < |l| ==> r[i] == Budget(l[i], active, kind)
  {
    seq(|l|, i requires 0 <= i < |l| => Budget(l[i], active, kind))
  }

  /** Summed over all domains, usage is what is held or leaked plus what is merely passed on. */
  ghost predicate Conserved(l: Ledger, kind: Kind) {
    Sum(Usages(l, kind)) == Sum(Owns(l, kind)) + Sum(Budgets(l, true, kind))
  }

  lemma PostConserved(l: Ledger, op: LedgerOp, kind: Kind)
    requires Allowed(l, op) && Conserved(l, kind)
    requires op.OpRefund? ==> l[op.d].parent != Some(op.d)
    ensures Conserved(Post(l, op), kind)
  {
    hide Post, Conserved;
    match op
    case OpRoot(_) => PostRootConserved(l, op, kind);
    case OpChild(p, _) =>
      if l[p].childRefs < U32_MAX {
        PostChildConserved(l, op, kind);
      } else {
        PostSimpleConserved(l, op, p, kind);
      }
    case OpRefund(d) => PostRefundConserved(l, d, kind);
    case OpCharge(d, _) => PostSimpleConserved(l, op, d, kind);
    case OpRelease(d, _) => PostSimpleConserved(l, op, d, kind);
    case OpProcessRefs(d, _) => PostSimpleConserved(l, op, d, kind);
  }

  lemma PostRootConserved(l: Ledger, op: LedgerOp, kind: Kind)
    requires op.OpRoot? && Allowed(l, op) && Conserved(l, kind)
    ensures Conserved(Post(l, op), kind)
  {
    hide Sum, Usages, Owns, Budgets;
    EntryAppend(l, Post(l, op)[|l|], kind);
  }

  lemma PostSimpleConserved(l: Ledger, op: LedgerOp, at: nat, kind: Kind)
    requires Simple(l, op, at) && Conserved(l, kind)
    ensures Conserved(Post(l, op), kind)
  {
    hide Sum, Usages, Owns, Budgets, Post, Allowed;
    SimpleIsBalanced(l, op, at, kind);
    EntryUpdate(l, at, Post(l, op)[at], kind);
  }

  lemma PostChildConserved(l: Ledger, op: LedgerOp, kind: Kind)
    requires op.OpChild? && Allowed(l, op) && Conserved(l, kind) && l[op.parent].childRefs < U32_MAX
    ensures Conserved(Post(l, op), kind)
  {
    var m, p := Post(l, op), op.parent;
    EntryUpdate(l, p, m[p], kind);
    EntryAppend(l[p := m[p]], m[|l|], kind);
  }

  lemma PostRefundConserved(l: Ledger, d: nat, kind: Kind)
    requires Allowed(l, OpRefund(d)) && Conserved(l, kind) && l[d].parent != Some(d)
    ensures Conserved(Post(l, OpRefund(d)), kind)
  {
    var m, p := Post(l, OpRefund(d)), l[d].parent.value;
    EntryUpdate(l, p, m[p], kind);
    EntryUpdate(l[p := m[p]], d, m[d], kind);
  }

  /** How the three sums move when one entry is replaced. */
  lemma EntryUpdate(l: Ledger, d: nat, e: Entry, kind: Kind)
    requires d < |l|
    ensures Sum(Usages(l[d := e], kind)) + Part(l[d].usage, 0, kind) == Sum(Usages(l, kind)) + Part(e.usage, 0, kind)
    ensures Sum(Owns(l[d := e], kind)) + Own(l[d], kind) == Sum(Owns(l, kind)) + Own(e, kind)
    ensures Sum(Budgets(l[d := e], true, kind)) + Budget(l[d], true, kind)
         == Sum(Budgets(l, true, kind)) + Budget(e, true, kind)
  {
    hide Sum, Usages, Owns, Budgets, Part;
    var m := l[d := e];
    assert Usages(m, kind) == Usages(l, kind)[d := Part(e.usage, 0, kind)];
    SumUpdate(Usages(l, kind), d, Part(e.usage, 0, kind));
    assert Owns(m, kind) == Owns(l, kind)[d := Own(e, kind)];
    SumUpdate(Owns(l, kind), d, Own(e, kind));
    assert Budgets(m, true, kind) == Budgets(l, true, kind)[d := Budget(e, true, kind)];
    SumUpdate(Budgets(l, true, kind), d, Budget(e, true, kind));
  }

  lemma EntryAppend(l: Ledger, e: Entry, kind: Kind)
    ensures Sum(Usages(l + [e], kind)) == Sum(Usages(l, kind)) + Part(e.usage, 0, kind)
    ensures Sum(Owns(l + [e], kind)) == Sum(Owns(l, kind)) + Own(e, kind)
    ensures Sum(Budgets(l + [e], true, kind)) == Sum(Budgets(l, true, kind)) + Budget(e, true, kind)
  {
    hide Sum, Usages, Owns, Budgets, Part;
    var m := l + [e];
    assert Usages(m, kind) == Usages(l, kind) + [Part(e.usage, 0, kind)];
    SumAppend(Usages(l, kind), Part(e.usage, 0, kind));
    assert Owns(m, kind) == Owns(l, kind) + [Own(e, kind)];
    SumAppend(Owns(l, kind), Own(e, kind));
    assert Budgets(m, true, kind) == Budgets(l, true, kind) + [Budget(e, true, kind)];
    SumAppend(Budgets(l, true, kind), Budget(e, true, kind));
  }

  lemma FollowsConserved(l: Ledger, op: LedgerOp, m: Ledger, kind: Kind)
    requires Consistent(l) && Follows(l, op, m) && Conserved(l, kind)
    ensures Conserved(m, kind)
  {
    hide Conserved, Post;
    if op.OpRefund? {
      assert Bounded(l, op.d);
    }
    PostConserved(l, op, kind);
  }

  lemma {:induction false} HistoryConserved(ledgers: seq<Ledger>, ops: seq<LedgerOp>, i: nat, kind: Kind)
    requires IsHistory(ledgers, ops) && i < |ledgers|
    ensures Conserved(ledgers[i], kind)
  {
    if i > 0 {
      hide Conserved, Follows, Consistent;
      HistoryConserved(ledgers, ops, i - 1, kind);
      AccountingExact(ledgers, ops, i - 1);
      assert Follows(ledgers[i - 1], ops[i - 1], ledgers[i]);
      FollowsConserved(ledgers[i - 1], ops[i - 1], ledgers[i], kind);
    }
  }

  /**
    However budgets are nested, delegated and returned, what all domains together hold or have leaked
    never exceeds the independent budgets: delegation creates no resources.
  */
  lemma DelegationCreatesNothing(ledgers: seq<Ledger>, ops: seq<LedgerOp>, i: nat, kind: Kind)
    requires IsHistory(ledgers, ops) && i < |ledgers|
    ensures Sum(Owns(ledgers[i], kind)) <= Sum(Budgets(ledgers[i], false, kind))
  {
    var l := ledgers[i];
    HistoryConserved(ledgers, ops, i, kind);
    AccountingExact(ledgers, ops, i);
    forall d | 0 <= d < |l|
      ensures Part(l[d].usage, 0, kind) <= Part(l[d].limits, 0, kind)
    {
      assert Bounded(l, d);
    }
    SumWithin(Usages(l, kind), Limits(l, kind));
    SumPointwise(Budgets(l, false, kind), Budgets(l, true, kind), Limits(l, kind));
  }
}
