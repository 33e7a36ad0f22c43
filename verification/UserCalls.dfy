/** Calls of user functions: arguments are copied in and copied back out. */
module UserCalls {

  type Value = int
  type Store = int
  /** Places in the caller and expressions of the caller, as far as this translation sees them. */
  type LValue = int
  type RValue = int

  datatype Qualifier = In | Out | InOut | Uniform | ConstReadOnly

  /** An argument: `original` ones are passed by reference; `mismatch` says that the parameter's type differs. */
  datatype Arg = Arg(qualifier: Qualifier, original: bool, lvalue: LValue, rvalue: RValue, mismatch: bool)

  predicate WritableParam(q: Qualifier) {
    q != ConstReadOnly && q != Uniform
  }

  predicate KeepsLValue(a: Arg) {
    a.original || WritableParam(a.qualifier)
  }

  predicate CopiesIn(a: Arg) {
    !a.original && (a.qualifier == In || a.qualifier == InOut)
  }

  predicate CopiesOut(a: Arg) {
    !a.original && (a.qualifier == Out || a.qualifier == InOut)
  }

  // ---------- what a call means ----------

  datatype MaybeValue = NoValue | SomeValue(v: Value)

  /** What the function gets: a place of the caller, a place of its own with or without a value, or a value. */
  datatype Passed = ByReference(lvalue: LValue) | BySlot(initial: MaybeValue) | ByValue(v: Value)

  /** What the function leaves: the caller's memory, its own places by argument number, and its result. */
  datatype Outcome = Outcome(mem: Store, finals: nat -> Value, result: Value)

  datatype Machine = Machine(read: (Store, LValue) -> Value, write: (Store, LValue, Value) -> Store,
                             eval: (Store, RValue) -> Value, callee: (Store, seq<Passed>) -> Outcome)

  function Pass(m: Machine, mem: Store, a: Arg): Passed {
    if a.original then ByReference(a.lvalue)
    else
      match a.qualifier
      case In => BySlot(SomeValue(m.read(mem, a.lvalue)))
      case InOut => BySlot(SomeValue(m.read(mem, a.lvalue)))
      case Out => BySlot(NoValue)
      case Uniform => ByValue(m.eval(mem, a.rvalue))
      case ConstReadOnly => ByValue(m.eval(mem, a.rvalue))
  }

  function PassAll(m: Machine, mem: Store, args: seq<Arg>): (r: seq<Passed>)
    ensures |r| == |args|
  {
    seq(|args|, i requires 0 <= i < |args| => Pass(m, mem, args[i]))
  }

  /** The out and inout arguments among the first `n` are written from left to right. */
  function CopyBack(m: Machine, args: seq<Arg>, n: nat, finals: nat -> Value, mem: Store): Store
    requires n <= |args|
  {
    if n == 0 then mem
    else
      var before := CopyBack(m, args, n - 1, finals, mem);
      var written := m.write(before, args[n - 1].lvalue, finals(n - 1));
      if args[n - 1].original then before
      else
        match args[n - 1].qualifier
        case Out => written
        case InOut => written
        case _ => before
  }

  /** Copy-in, call, copy-out: the memory after the call and the result. */
  function CallMeaning(m: Machine, args: seq<Arg>, mem: Store): (Store, Value) {
    var o := m.callee(mem, PassAll(m, mem, args));
    (CopyBack(m, args, |args|, o.finals, o.mem), o.result)
  }

  // ---------- code ----------

  /** An actual argument: a place of the caller, a variable, or a value. */
  datatype Actual = Pointer(lvalue: LValue) | Variable(id: nat) | Id(id: nat)

  datatype Instr =
    | Evaluate(dst: nat, rvalue: RValue)
    | LoadPlace(dst: nat, lvalue: LValue)
    | StorePlace(lvalue: LValue, src: nat)
    | StoreVar(variable: nat, src: nat)
    | LoadVar(dst: nat, variable: nat)
    | CallFn(dst: nat, args: seq<Actual>)

  /** Memory of the caller, values of ids, contents of variables. */
  datatype State = State(mem: Store, env: map<nat, Value>, vars: map<nat, Value>)

  function Get(env: map<nat, Value>, id: nat): Value {
    if id in env then env[id] else 0
  }

  function ToPassed(s: State, a: Actual): Passed {
    match a
    case Pointer(lv) => ByReference(lv)
    case Variable(x) => BySlot(if x in s.vars then SomeValue(s.vars[x]) else NoValue)
    case Id(x) => ByValue(Get(s.env, x))
  }

  function ToPassedAll(s: State, args: seq<Actual>): (r: seq<Passed>)
    ensures |r| == |args|
  {
    seq(|args|, i requires 0 <= i < |args| => ToPassed(s, args[i]))
  }

  /** The variables passed hold what the function left in them. */
  function LeaveFinals(vars: map<nat, Value>, args: seq<Actual>, n: nat, finals: nat -> Value): map<nat, Value>
    requires n <= |args|
  {
    if n == 0 then vars
    else
      var before := LeaveFinals(vars, args, n - 1, finals);
      if args[n - 1].Variable? then before[args[n - 1].id := finals(n - 1)] else before
  }

  function Step(m: Machine, s: State, i: Instr): State {
    match i
    case Evaluate(d, rv) => s.(env := s.env[d := m.eval(s.mem, rv)])
    case LoadPlace(d, lv) => s.(env := s.env[d := m.read(s.mem, lv)])
    case StorePlace(lv, x) => s.(mem := m.write(s.mem, lv, Get(s.env, x)))
    case StoreVar(v, x) => s.(vars := s.vars[v := Get(s.env, x)])
    case LoadVar(d, v) => s.(env := s.env[d := Get(s.vars, v)])
    case CallFn(d, args) =>
      var o := m.callee(s.mem, ToPassedAll(s, args));
      State(o.mem, s.env[d := o.result], LeaveFinals(s.vars, args, |args|, o.finals))
  }

  function Run(m: Machine, s: State, code: seq<Instr>): State {
    if code == [] then s else Step(m, Run(m, s, code[..|code| - 1]), code[|code| - 1])
  }

  lemma {:induction false} RunAppend(m: Machine, s: State, a: seq<Instr>, b: seq<Instr>)
    ensures Run(m, s, a + b) == Run(m, Run(m, s, a), b)
    decreases |b|
  {
    if b == [] {
      assert a + b == a;
    } else {
      assert (a + b)[..|a + b| - 1] == a + b[..|b| - 1];
      RunAppend(m, s, a, b[..|b| - 1]);
    }
  }

  // ---------- the code for a call ----------

  /** Step 1: r-values of the first `n` arguments, with ids from `next` on. */
  function Evaluated(args: seq<Arg>, n: nat, next: nat): (r: (seq<Instr>, map<nat, nat>, nat))
    requires n <= |args|
    ensures next <= r.2
  {
    if n == 0 then ([], map[], next)
    else
      var (code, ids, k) := Evaluated(args, n - 1, next);
      if KeepsLValue(args[n - 1]) then (code, ids, k)
      else (code + [Evaluate(k, args[n - 1].rvalue)], ids[n - 1 := k], k + 1)
  }

  /** Step 2: the actual arguments, with variables for copies. */
  function Prepared(args: seq<Arg>, n: nat, ids: map<nat, nat>, next: nat): (r: (seq<Instr>, seq<Actual>, nat))
    requires n <= |args|
    ensures |r.1| == n && next <= r.2
  {
    if n == 0 then ([], [], next)
    else
      var (code, actuals, k) := Prepared(args, n - 1, ids, next);
      var a := args[n - 1];
      if a.original then (code, actuals + [Pointer(a.lvalue)], k)
      else if WritableParam(a.qualifier) then
        if CopiesIn(a) then (code + [LoadPlace(k + 1, a.lvalue), StoreVar(k, k + 1)], actuals + [Variable(k)], k + 2)
        else (code, actuals + [Variable(k)], k + 1)
      else
        var v := if n - 1 in ids then ids[n - 1] else 0;
        if a.mismatch then (code + [StoreVar(k, v), LoadVar(k + 1, k)], actuals + [Id(k + 1)], k + 2)
        else (code, actuals + [Id(v)], k)
  }

  /** Step 4: out and inout arguments are copied back. */
  function CopiedBack(args: seq<Arg>, n: nat, actuals: seq<Actual>, next: nat): (r: (seq<Instr>, nat))
    requires n <= |args| == |actuals|
    ensures next <= r.1
  {
    if n == 0 then ([], next)
    else
      var (code, k) := CopiedBack(args, n - 1, actuals, next);
      if CopiesOut(args[n - 1]) && actuals[n - 1].Variable? then
        (code + [LoadVar(k, actuals[n - 1].id), StorePlace(args[n - 1].lvalue, k)], k + 1)
      else (code, k)
  }

  /** The code of a call and the id of its result. */
  function CallCode(args: seq<Arg>, next: nat): (seq<Instr>, nat) {
    var (c1, ids, k1) := Evaluated(args, |args|, next);
    var (c2, actuals, k2) := Prepared(args, |args|, ids, k1);
    var (c4, _) := CopiedBack(args, |args|, actuals, k2 + 1);
    (c1 + c2 + [CallFn(k2, actuals)] + c4, k2)
  }

  // ---------- the code does what the call means ----------

  /** After step 1 the ids hold the values of the arguments; nothing else has happened. */
  lemma {:induction false} AfterEvaluated(m: Machine, args: seq<Arg>, n: nat, next: nat, s: State)
    requires n <= |args|
    ensures var (code, ids, k) := Evaluated(args, n, next); var t := Run(m, s, code);
            && t.mem == s.mem && t.vars == s.vars
            && forall a :: 0 <= a < n && !KeepsLValue(args[a]) ==>
                 a in ids && ids[a] < k && Get(t.env, ids[a]) == m.eval(s.mem, args[a].rvalue)
  {
    if n > 0 {
      AfterEvaluated(m, args, n - 1, next, s);
      var (code, ids, k) := Evaluated(args, n - 1, next);
      var i := Evaluate(k, args[n - 1].rvalue);
      assert (code + [i])[..|code|] == code;
    }
  }

  /** The variables passed so far are distinct and new. */
  ghost predicate FreshVars(actuals: seq<Actual>, lo: nat, hi: nat) {
    && (forall a :: 0 <= a < |actuals| && actuals[a].Variable? ==> lo <= actuals[a].id < hi)
    && forall a, b :: 0 <= a < b < |actuals| && actuals[a].Variable? && actuals[b].Variable?
        ==> actuals[a].id != actuals[b].id
  }

  /** After step 2 the function will get what it should get. */
  ghost predicate PassedRight(m: Machine, args: seq<Arg>, mem: Store, s: State, actuals: seq<Actual>) {
    |actuals| <= |args| && forall a :: 0 <= a < |actuals| ==> ToPassed(s, actuals[a]) == Pass(m, mem, args[a])
  }

  /** Ids and variables from `k` on are not in use. */
  predicate Unused(s: State, k: nat) {
    forall x :: x in s.vars ==> x < k
  }

  ghost predicate ActualsBelow(actuals: seq<Actual>, k: nat) {
    forall a :: 0 <= a < |actuals| && !actuals[a].Pointer? ==> actuals[a].id < k
  }

  /** Everything step 2 keeps for the arguments prepared so far; `s` is the state before, `t` the one now. */
  ghost predicate PreparedOk(m: Machine, args: seq<Arg>, next: nat, s: State, t: State, actuals: seq<Actual>, k: nat) {
    && t.mem == s.mem && next <= k && Unused(t, k) && FreshVars(actuals, next, k) && ActualsBelow(actuals, k)
    && PassedRight(m, args, s.mem, t, actuals)
    && (forall x: nat :: x < next ==> Get(t.env, x) == Get(s.env, x))
    && forall a :: 0 <= a < |actuals| ==> (actuals[a].Variable?
                                           <==> !args[a].original && WritableParam(args[a].qualifier))
  }

  /** The ids of the values evaluated in step 1. */
  ghost predicate ValuesReady(m: Machine, args: seq<Arg>, ids: map<nat, nat>, next: nat, s: State) {
    forall a :: 0 <= a < |args| && !KeepsLValue(args[a]) ==>
      a in ids && ids[a] < next && Get(s.env, ids[a]) == m.eval(s.mem, args[a].rvalue)
  }

  /** One more argument prepared. */
  lemma PreparedNext(args: seq<Arg>, n: nat, ids: map<nat, nat>, next: nat)
    requires 0 < n <= |args|
    ensures Prepared(args, n, ids, next) == WithArgument(Prepared(args, n - 1, ids, next), args[n - 1], n - 1, ids)
  {
  }

  function WithArgument(before: (seq<Instr>, seq<Actual>, nat), a: Arg, n: nat, ids: map<nat, nat>)
    : (seq<Instr>, seq<Actual>, nat)
  {
    var (code, actuals, k) := before;
    var v := if n in ids then ids[n] else 0;
    if a.original then (code, actuals + [Pointer(a.lvalue)], k)
    else if KeepsLValue(a) && CopiesIn(a) then
      (code + [LoadPlace(k + 1, a.lvalue), StoreVar(k, k + 1)], actuals + [Variable(k)], k + 2)
    else if KeepsLValue(a) then (code, actuals + [Variable(k)], k + 1)
    else if a.mismatch then (code + [StoreVar(k, v), LoadVar(k + 1, k)], actuals + [Id(k + 1)], k + 2)
    else (code, actuals + [Id(v)], k)
  }

  lemma NextPrepared(m: Machine, args: seq<Arg>, n: nat, ids: map<nat, nat>, next: nat, s: State,
                     code: seq<Instr>, actuals: seq<Actual>, k: nat)
    requires 0 < n <= |args| && |actuals| == n - 1 && ValuesReady(m, args, ids, next, s)
    requires PreparedOk(m, args, next, s, Run(m, s, code), actuals, k)
    ensures var (code1, actuals1, k1) := WithArgument((code, actuals, k), args[n - 1], n - 1, ids);
            PreparedOk(m, args, next, s, Run(m, s, code1), actuals1, k1)
  {
    hide PreparedOk, ValuesReady, Unused, Run;
    var t := Run(m, s, code);
    var a := args[n - 1];
    PlaceReady(m, args, next, s, t, actuals, k);
    if !a.original && CopiesIn(a) {
      RunTwo(m, s, code, LoadPlace(k + 1, a.lvalue), StoreVar(k, k + 1));
      CopiedIn(m, args, next, s, t, actuals, k);
    } else if !KeepsLValue(a) {
      ByValueReady(m, args, n, ids, next, s, t, actuals, k);
      if a.mismatch {
        RunTwo(m, s, code, StoreVar(k, ids[n - 1]), LoadVar(k + 1, k));
      }
    }
  }

  lemma {:induction false} AfterPrepared(m: Machine, args: seq<Arg>, n: nat, ids: map<nat, nat>, next: nat, s: State)
    requires n <= |args| && Unused(s, next) && ValuesReady(m, args, ids, next, s)
    ensures var (code, actuals, k) := Prepared(args, n, ids, next);
            PreparedOk(m, args, next, s, Run(m, s, code), actuals, k)
  {
    hide PreparedOk, ValuesReady, Unused;
    if n == 0 {
      NothingPrepared(m, args, next, s);
    } else {
      AfterPrepared(m, args, n - 1, ids, next, s);
      var (code, actuals, k) := Prepared(args, n - 1, ids, next);
      PreparedNext(args, n, ids, next);
      hide Prepared, Run;
      NextPrepared(m, args, n, ids, next, s, code, actuals, k);
    }
  }

  lemma NothingPrepared(m: Machine, args: seq<Arg>, next: nat, s: State)
    requires Unused(s, next)
    ensures PreparedOk(m, args, next, s, s, [], next)
  {
  }

  /** A place of the caller, or a variable without a value. */
  lemma PlaceReady(m: Machine, args: seq<Arg>, next: nat, s: State, t: State, actuals: seq<Actual>, k: nat)
    requires PreparedOk(m, args, next, s, t, actuals, k) && |actuals| < |args|
    ensures var a := args[|actuals|];
            && (a.original ==> PreparedOk(m, args, next, s, t, actuals + [Pointer(a.lvalue)], k))
            && (!a.original && WritableParam(a.qualifier) && !CopiesIn(a) ==>
                  PreparedOk(m, args, next, s, t, actuals + [Variable(k)], k + 1))
  {
    var a := args[|actuals|];
    if a.original {
      AnotherActual(m, args, next, s, t, actuals, k, t, Pointer(a.lvalue), k);
    } else if WritableParam(a.qualifier) && !CopiesIn(a) {
      AnotherActual(m, args, next, s, t, actuals, k, t, Variable(k), k + 1);
    }
  }

  /** Reading and writing new ids and variables does not disturb what is prepared. */
  lemma AnotherActual(m: Machine, args: seq<Arg>, next: nat, s: State, t: State, actuals: seq<Actual>, k: nat,
                      t1: State, a: Actual, k1: nat)
    requires PreparedOk(m, args, next, s, t, actuals, k) && |actuals| < |args|
    requires t1.mem == t.mem && k <= k1 && Unused(t1, k1)
    requires forall x: nat :: x < k ==> Get(t1.env, x) == Get(t.env, x)
    requires forall x: nat :: x < k ==> (x in t1.vars <==> x in t.vars) && (x in t.vars ==> t1.vars[x] == t.vars[x])
    requires ToPassed(t1, a) == Pass(m, s.mem, args[|actuals|])
    requires a.Variable? <==> !args[|actuals|].original && WritableParam(args[|actuals|].qualifier)
    requires (a.Variable? ==> k <= a.id < k1) && (a.Id? ==> a.id < k1)
    ensures PreparedOk(m, args, next, s, t1, actuals + [a], k1)
  {
    var all := actuals + [a];
    forall c | 0 <= c < |all| ensures ToPassed(t1, all[c]) == Pass(m, s.mem, args[c]) {
      if c < |actuals| {
        assert ToPassed(t, actuals[c]) == Pass(m, s.mem, args[c]);
        SamePassed(t, t1, actuals[c], k);
      }
    }
  }

  lemma SamePassed(t: State, t1: State, a: Actual, k: nat)
    requires !a.Pointer? ==> a.id < k
    requires forall x: nat :: x < k ==> Get(t1.env, x) == Get(t.env, x)
    requires forall x: nat :: x < k ==> (x in t1.vars <==> x in t.vars) && (x in t.vars ==> t1.vars[x] == t.vars[x])
    ensures ToPassed(t1, a) == ToPassed(t, a)
  {
  }

  lemma CopiedIn(m: Machine, args: seq<Arg>, next: nat, s: State, t: State, actuals: seq<Actual>, k: nat)
    requires PreparedOk(m, args, next, s, t, actuals, k) && |actuals| < |args| && CopiesIn(args[|actuals|])
    ensures var t1 := Step(m, Step(m, t, LoadPlace(k + 1, args[|actuals|].lvalue)), StoreVar(k, k + 1));
            PreparedOk(m, args, next, s, t1, actuals + [Variable(k)], k + 2)
  {
    var a := args[|actuals|];
    var t1 := Step(m, Step(m, t, LoadPlace(k + 1, a.lvalue)), StoreVar(k, k + 1));
    assert t1.vars == t.vars[k := m.read(t.mem, a.lvalue)];
    assert t1.env == t.env[k + 1 := m.read(t.mem, a.lvalue)];
    AnotherActual(m, args, next, s, t, actuals, k, t1, Variable(k), k + 2);
  }

  lemma ByValueReady(m: Machine, args: seq<Arg>, n: nat, ids: map<nat, nat>, next: nat, s: State, t: State,
                     actuals: seq<Actual>, k: nat)
    requires n == |actuals| + 1 && n <= |args| && ValuesReady(m, args, ids, next, s)
    requires PreparedOk(m, args, next, s, t, actuals, k) && !KeepsLValue(args[n - 1])
    ensures n - 1 in ids
    ensures PreparedOk(m, args, next, s, t, actuals + [Id(ids[n - 1])], k)
    ensures var t1 := Step(m, Step(m, t, StoreVar(k, ids[n - 1])), LoadVar(k + 1, k));
            PreparedOk(m, args, next, s, t1, actuals + [Id(k + 1)], k + 2)
  {
    var v := ids[n - 1];
    AnotherActual(m, args, next, s, t, actuals, k, t, Id(v), k);
    var t1 := Step(m, Step(m, t, StoreVar(k, v)), LoadVar(k + 1, k));
    assert t1.vars == t.vars[k := Get(t.env, v)] && t1.env == t.env[k + 1 := Get(t.env, v)];
    AnotherActual(m, args, next, s, t, actuals, k, t1, Id(k + 1), k + 2);
  }

  lemma RunTwo(m: Machine, s: State, code: seq<Instr>, i: Instr, j: Instr)
    ensures Run(m, s, code + [i, j]) == Step(m, Step(m, Run(m, s, code), i), j)
  {
    assert (code + [i, j])[..|code| + 1] == code + [i];
    assert (code + [i])[..|code|] == code;
  }

  /** After the call each variable holds what the function left in it. */
  lemma {:induction false} FinalsLeft(vars: map<nat, Value>, args: seq<Actual>, n: nat, finals: nat -> Value, lo: nat,
                                      hi: nat, a: nat)
    requires a < n <= |args| && FreshVars(args, lo, hi) && args[a].Variable?
    ensures args[a].id in LeaveFinals(vars, args, n, finals)
            && LeaveFinals(vars, args, n, finals)[args[a].id] == finals(a)
  {
    if a < n - 1 {
      FinalsLeft(vars, args, n - 1, finals, lo, hi, a);
    }
  }

  lemma {:induction false} AfterCopiedBack(m: Machine, args: seq<Arg>, n: nat, actuals: seq<Actual>, next: nat,
                                           s: State, finals: nat -> Value)
    requires n <= |args| == |actuals|
    requires forall a :: 0 <= a < |args| && CopiesOut(args[a]) ==>
               actuals[a].Variable? && Get(s.vars, actuals[a].id) == finals(a)
    ensures var (code, k) := CopiedBack(args, n, actuals, next); var t := Run(m, s, code);
            && t.mem == CopyBack(m, args, n, finals, s.mem) && t.vars == s.vars
            && forall x: nat :: x < next ==> Get(t.env, x) == Get(s.env, x)
  {
    if n > 0 {
      AfterCopiedBack(m, args, n - 1, actuals, next, s, finals);
      var (code, k) := CopiedBack(args, n - 1, actuals, next);
      if CopiesOut(args[n - 1]) {
        RunTwo(m, s, code, LoadVar(k, actuals[n - 1].id), StorePlace(args[n - 1].lvalue, k));
      }
    }
  }

  /**
   * The code implements copy-in and copy-out for any mix of parameters: the function gets what it should, and the
   * memory afterwards is the one it leaves, with its out and inout values assigned from left to right.
   */
  lemma CallIsCopyInCopyOut(m: Machine, args: seq<Arg>, next: nat, s: State)
    requires Unused(s, next)
    ensures var (code, result) := CallCode(args, next); var t := Run(m, s, code);
            t.mem == CallMeaning(m, args, s.mem).0 && Get(t.env, result) == CallMeaning(m, args, s.mem).1
  {
    var (c1, ids, k1) := Evaluated(args, |args|, next);
    var (c2, actuals, k2) := Prepared(args, |args|, ids, k1);
    var (c4, k4) := CopiedBack(args, |args|, actuals, k2 + 1);
    var call := CallFn(k2, actuals);
    AfterEvaluated(m, args, |args|, next, s);
    var s1 := Run(m, s, c1);
    AfterPrepared(m, args, |args|, ids, k1, s1);
    var s2 := Run(m, s1, c2);
    hide Run, Evaluated, Prepared, CopiedBack;
    TheCall(m, args, actuals, k1, k2, s1, s2);
    var s3 := Step(m, s2, call);
    var o := m.callee(s.mem, PassAll(m, s.mem, args));
    AfterCopiedBack(m, args, |args|, actuals, k2 + 1, s3, o.finals);
    RunAppend(m, s, c1, c2);
    RunOne(m, s, c1 + c2, call);
    RunAppend(m, s, c1 + c2 + [call], c4);
  }

  lemma RunOne(m: Machine, s: State, code: seq<Instr>, i: Instr)
    ensures Run(m, s, code + [i]) == Step(m, Run(m, s, code), i)
  {
    assert (code + [i])[..|code|] == code;
  }

  /** The function gets what it should, and its variables hold what it leaves. */
  lemma TheCall(m: Machine, args: seq<Arg>, actuals: seq<Actual>, k1: nat, k2: nat, s1: State, s2: State)
    requires |actuals| == |args| && PreparedOk(m, args, k1, s1, s2, actuals, k2)
    ensures ToPassedAll(s2, actuals) == PassAll(m, s1.mem, args)
    ensures var o := m.callee(s1.mem, PassAll(m, s1.mem, args)); var s3 := Step(m, s2, CallFn(k2, actuals));
            && s3.mem == o.mem && Get(s3.env, k2) == o.result
            && forall a :: 0 <= a < |args| && CopiesOut(args[a])
                ==> actuals[a].Variable? && Get(s3.vars, actuals[a].id) == o.finals(a)
  {
    assert ToPassedAll(s2, actuals) == PassAll(m, s1.mem, args);
    var o := m.callee(s1.mem, PassAll(m, s1.mem, args));
    forall a | 0 <= a < |args| && CopiesOut(args[a])
      ensures actuals[a].Variable? && Get(LeaveFinals(s2.vars, actuals, |actuals|, o.finals), actuals[a].id)
              == o.finals(a)
    {
      FinalsLeft(s2.vars, actuals, |actuals|, o.finals, k1, k2, a);
    }
  }

  // ---------- the translation with its counters ----------

  /** The saved l-values of the first `n` arguments, and the ids of their r-values. */
  function LValues(args: seq<Arg>, n: nat): seq<LValue>
    requires n <= |args|
  {
    if n == 0 then [] else LValues(args, n - 1) + if KeepsLValue(args[n - 1]) then [args[n - 1].lvalue] else []
  }

  function RValues(args: seq<Arg>, n: nat, next: nat): seq<nat>
    requires n <= |args|
  {
    if n == 0 then []
    else RValues(args, n - 1, next) + if KeepsLValue(args[n - 1]) then [] else [Evaluated(args, n - 1, next).2]
  }

  /** Counting arguments of a kind finds what was saved for the argument at hand. */
  lemma {:induction false} SavedFor(args: seq<Arg>, k: nat, n: nat, next: nat)
    requires k < n <= |args|
    ensures var l := |LValues(args, k)|; var r := |RValues(args, k, next)|;
            && (KeepsLValue(args[k]) ==> l < |LValues(args, n)| && LValues(args, n)[l] == args[k].lvalue)
            && (!KeepsLValue(args[k]) ==>
                  && r < |RValues(args, n, next)| && k in Evaluated(args, n, next).1
                  && RValues(args, n, next)[r] == Evaluated(args, n, next).1[k])
    decreases n
  {
    if k < n - 1 {
      SavedFor(args, k, n - 1, next);
    }
  }

  /** The counters after one more argument. */
  lemma CountersStep(args: seq<Arg>, k: nat, next: nat)
    requires k < |args|
    ensures |LValues(args, k + 1)| == |LValues(args, k)| + if KeepsLValue(args[k]) then 1 else 0
    ensures |RValues(args, k + 1, next)| == |RValues(args, k, next)| + if KeepsLValue(args[k]) then 0 else 1
  {
  }

  lemma NothingYet(args: seq<Arg>, ids: map<nat, nat>, next: nat, start: nat)
    ensures Prepared(args, 0, ids, start) == ([], [], start) && LValues(args, 0) == [] && RValues(args, 0, next) == []
  {
  }

  class CallBuilder {
    var code: seq<Instr>
    var nextId: nat

    constructor (nextId: nat)
      ensures code == [] && this.nextId == nextId
    {
      this.code, this.nextId := [], nextId;
    }

    method UniqueId() returns (id: nat)
      modifies `nextId
      ensures id == old(nextId) && nextId == id + 1
    {
      id := nextId;
      nextId := nextId + 1;
    }

    /** 1. Evaluates the arguments: l-values are kept, others become values. */
    method EvaluateArguments(args: seq<Arg>) returns (lValues: seq<LValue>, rValues: seq<nat>)
      modifies this
      ensures var (c, ids, k) := Evaluated(args, |args|, old(nextId)); code == old(code) + c && nextId == k
      ensures lValues == LValues(args, |args|) && rValues == RValues(args, |args|, old(nextId))
    {
      ghost var was, next := code, nextId;
      lValues, rValues := [], [];
      for a := 0 to |args|
        invariant code == was + Evaluated(args, a, next).0 && nextId == Evaluated(args, a, next).2
        invariant lValues == LValues(args, a) && rValues == RValues(args, a, next)
      {
        if args[a].original || WritableParam(args[a].qualifier) {
          lValues := lValues + [args[a].lvalue];
        } else {
          var id := UniqueId();
          code := code + [Evaluate(id, args[a].rvalue)];
          rValues := rValues + [id];
        }
      }
    }

    /** 2. Makes space for copies and fills it for in and inout arguments. */
    method PrepareArguments(args: seq<Arg>, lValues: seq<LValue>, rValues: seq<nat>, ghost next: nat)
      returns (spvArgs: seq<Actual>)
      requires lValues == LValues(args, |args|) && rValues == RValues(args, |args|, next)
      modifies this
      ensures var (c, actuals, k) := Prepared(args, |args|, Evaluated(args, |args|, next).1, old(nextId));
              code == old(code) + c && spvArgs == actuals && nextId == k
    {
      hide Prepared, LValues, RValues, Evaluated;
      ghost var was, start, ids := code, nextId, Evaluated(args, |args|, next).1;
      var lValueCount, rValueCount := 0, 0;
      spvArgs := [];
      NothingYet(args, ids, next, start);
      for a := 0 to |args|
        invariant var (c, actuals, k) := Prepared(args, a, ids, start);
                  code == was + c && spvArgs == actuals && nextId == k
        invariant lValueCount == |LValues(args, a)| && rValueCount == |RValues(args, a, next)|
      {
        SavedFor(args, a, |args|, next);
        CountersStep(args, a, next);
        PreparedNext(args, a + 1, ids, start);
        if args[a].original {
          spvArgs := spvArgs + [Pointer(lValues[lValueCount])];
          lValueCount := lValueCount + 1;
        } else if WritableParam(args[a].qualifier) {
          var arg := UniqueId();
          if args[a].qualifier == In || args[a].qualifier == InOut {
            var copy := UniqueId();
            code := code + [LoadPlace(copy, lValues[lValueCount]), StoreVar(arg, copy)];
          }
          lValueCount := lValueCount + 1;
          spvArgs := spvArgs + [Variable(arg)];
        } else {
          if args[a].mismatch {
            var argCopy := UniqueId();
            var arg := UniqueId();
            code := code + [StoreVar(argCopy, rValues[rValueCount]), LoadVar(arg, argCopy)];
            spvArgs := spvArgs + [Id(arg)];
          } else {
            spvArgs := spvArgs + [Id(rValues[rValueCount])];
          }
          rValueCount := rValueCount + 1;
        }
      }
    }

    /** 4. Copies back out and inout arguments. */
    method CopyBackArguments(args: seq<Arg>, lValues: seq<LValue>, spvArgs: seq<Actual>)
      requires lValues == LValues(args, |args|) && |spvArgs| == |args|
      requires forall a :: 0 <= a < |args| && CopiesOut(args[a]) ==> spvArgs[a].Variable?
      modifies this
      ensures code == old(code) + CopiedBack(args, |args|, spvArgs, old(nextId)).0
    {
      ghost var was, start := code, nextId;
      var lValueCount := 0;
      for a := 0 to |args|
        invariant code == was + CopiedBack(args, a, spvArgs, start).0 && nextId == CopiedBack(args, a, spvArgs, start).1
        invariant lValueCount == |LValues(args, a)|
      {
        SavedFor(args, a, |args|, 0);
        if args[a].original {
          lValueCount := lValueCount + 1;
        } else if WritableParam(args[a].qualifier) {
          if args[a].qualifier == Out || args[a].qualifier == InOut {
            var copy := UniqueId();
            code := code + [LoadVar(copy, spvArgs[a].id), StorePlace(lValues[lValueCount], copy)];
          }
          lValueCount := lValueCount + 1;
        }
      }
    }

    method HandleUserFunctionCall(args: seq<Arg>) returns (result: nat)
      modifies this
      ensures var (c, r) := CallCode(args, old(nextId)); code == old(code) + c && result == r
    {
      ghost var was, next := code, nextId;
      var lValues, rValues := EvaluateArguments(args);
      ghost var k1 := nextId;
      var spvArgs := PrepareArguments(args, lValues, rValues, next);
      VariablesForOut(args, |args|, Evaluated(args, |args|, next).1, k1);
      result := UniqueId();
      code := code + [CallFn(result, spvArgs)];
      CopyBackArguments(args, lValues, spvArgs);
    }
  }

  lemma {:induction false} VariablesForOut(args: seq<Arg>, n: nat, ids: map<nat, nat>, next: nat)
    requires n <= |args|
    ensures forall a :: 0 <= a < n && CopiesOut(args[a]) ==> Prepared(args, n, ids, next).1[a].Variable?
  {
    if n > 0 {
      VariablesForOut(args, n - 1, ids, next);
    }
  }
}
