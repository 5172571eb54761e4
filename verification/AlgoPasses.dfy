/** Passes over straight-line kernel programs: renaming, isolating reads and writes, twiddling. */
module AlgoPasses {

  datatype Atom = Ptr(id: nat) | WPtr(id: nat) | RealConst(value: real) | ImagConst(value: real) | NoAtom

  /** The operator of an expression; a copy has none. */
  datatype Op = Copy | Binary(symbol: char)

  datatype Expr = Expr(lhs: nat, left: Atom, op: Op, right: Atom)

  /** Which pointers are inputs and outputs; all others are local variables. */
  datatype IoPtr = IoPtr(inBegin: nat, inEnd: nat, outBegin: nat, outEnd: nat) {
    predicate In(x: nat) { inBegin <= x < inEnd }

    predicate Out(x: nat) { outBegin <= x < outEnd }

    predicate Local(x: nat) { !In(x) && !Out(x) }

    /** Pointers from x on are local, so they can be handed out as fresh ones. */
    predicate FreshFrom(x: nat) { inEnd <= x && outEnd <= x && (inEnd <= outBegin || outEnd <= inBegin) }
  }

  /** What programs are run on: the operators, the twiddle factors and the constants. */
  datatype Target<!V> = Target(apply: ((char, V, V)) -> V, factor: nat -> V, literal: Atom -> V)

  /** The content of a pointer; reading one that was never written gives some fixed value. */
  function Get<V>(t: Target<V>, env: imap<nat, V>, x: nat): V { if x in env then env[x] else t.literal(NoAtom) }

  function Value<V>(t: Target<V>, a: Atom, env: imap<nat, V>): V {
    match a
    case Ptr(id) => Get(t, env, id)
    case WPtr(id) => t.factor(id)
    case _ => t.literal(a)
  }

  function Result<V>(t: Target<V>, e: Expr, env: imap<nat, V>): V {
    match e.op
    case Copy => Value(t, e.left, env)
    case Binary(c) => t.apply((c, Value(t, e.left, env), Value(t, e.right, env)))
  }

  function Run<V>(t: Target<V>, code: seq<Expr>, env: imap<nat, V>): imap<nat, V> {
    if code == [] then env else Run(t, code[1..], env[code[0].lhs := Result(t, code[0], env)])
  }

  lemma {:induction false} RunAppend<V>(t: Target<V>, a: seq<Expr>, b: seq<Expr>, env: imap<nat, V>)
    ensures Run(t, a + b, env) == Run(t, b, Run(t, a, env))
  {
    if a == [] {
      assert a + b == b;
    } else {
      assert (a + b)[1..] == a[1..] + b;
      RunAppend(t, a[1..], b, env[a[0].lhs := Result(t, a[0], env)]);
    }
  }

  lemma RunOne<V>(t: Target<V>, e: Expr, env: imap<nat, V>)
    ensures Run(t, [e], env) == env[e.lhs := Result(t, e, env)]
  {
    assert [e][1..] == [];
  }

  predicate Reads(e: Expr, x: nat) { e.left == Ptr(x) || (e.op.Binary? && e.right == Ptr(x)) }

  /** Copies carry no second operand. */
  predicate Plain(code: seq<Expr>) { forall k :: 0 <= k < |code| && code[k].op.Copy? ==> code[k].right == NoAtom }

  predicate WritesNoInput(io: IoPtr, code: seq<Expr>) { forall k :: 0 <= k < |code| ==> !io.In(code[k].lhs) }

  // ----- prettify_algo

  /** The new name of an atom: locals and outputs that are written again are renamed. */
  predicate Renamed(io: IoPtr, a: Atom, written: set<nat>) {
    a.Ptr? && (io.Local(a.id) || (io.Out(a.id) && a.id in written))
  }

  datatype Names = Names(vars: map<nat, nat>, next: nat)

  function Rename(io: IoPtr, a: Atom, written: set<nat>, n: Names): (Atom, Names) {
    if !Renamed(io, a, written) then (a, n)
    else if a.id in n.vars then (Ptr(n.vars[a.id]), n)
    else (Ptr(n.next + 1), Names(n.vars[a.id := n.next + 1], n.next + 1))
  }

  /** Names are distinct local variables that were handed out, for locals and rewritten outputs. */
  ghost predicate NamesOk(io: IoPtr, start: nat, written: set<nat>, n: Names) {
    && start <= n.next && Injective(n.vars)
    && forall x :: x in n.vars ==> start < n.vars[x] <= n.next && Renamed(io, Ptr(x), written)
  }

  ghost predicate Injective(vars: map<nat, nat>) {
    forall x, y {:trigger vars[x], vars[y]} :: x in vars && y in vars && vars[x] == vars[y] ==> x == y
  }

  lemma InjectiveAdd(vars: map<nat, nat>, x: nat, v: nat)
    requires Injective(vars) && forall y :: y in vars ==> vars[y] < v
    ensures Injective(vars[x := v])
  {
  }

  lemma InjectiveRemove(vars: map<nat, nat>, x: nat)
    requires Injective(vars)
    ensures Injective(vars - {x})
    ensures x in vars ==> forall y :: y in vars - {x} ==> vars[y] != vars[x]
  {
  }

  /** Environments agree where the rest of the program looks: inputs, finished outputs, and
      renamed variables under their new names.
   */
  ghost predicate Agree<V>(t: Target<V>, io: IoPtr, vars: map<nat, nat>, written: set<nat>, env: imap<nat, V>, env': imap<nat, V>) {
    && (forall x :: io.In(x) || (io.Out(x) && x !in written) ==> Get(t, env', x) == Get(t, env, x))
    && forall x :: x in vars ==> Get(t, env', vars[x]) == Get(t, env, x)
  }

  ghost predicate SameOutputs<V>(t: Target<V>, io: IoPtr, env: imap<nat, V>, env': imap<nat, V>) { forall x :: io.Out(x) ==> Get(t, env', x) == Get(t, env, x) }

  ghost predicate Prettified<V(!new)>(t: Target<V>, io: IoPtr, code: seq<Expr>, code': seq<Expr>, vars: map<nat, nat>, written: set<nat>) {
    forall env: imap<nat, V>, env': imap<nat, V> {:trigger Agree(t, io, vars, written, env, env')} ::
      Agree(t, io, vars, written, env, env') ==> SameOutputs(t, io, Run(t, code, env), Run(t, code', env'))
  }

  /** m knows the names of n, and possibly one more for the atom a. */
  ghost predicate Extends(m: Names, n: Names, a: Atom) {
    && n.next <= m.next
    && (forall x :: x in n.vars ==> x in m.vars && m.vars[x] == n.vars[x])
    && forall x :: x in m.vars && x !in n.vars ==> a == Ptr(x) && m.vars[x] > n.next
  }

  lemma RenameKeepsNames(io: IoPtr, start: nat, a: Atom, written: set<nat>, n: Names)
    requires NamesOk(io, start, written, n)
    ensures NamesOk(io, start, written, Rename(io, a, written, n).1)
  {
    if a.Ptr? { InjectiveAdd(n.vars, a.id, n.next + 1); }
    hide Injective;
  }

  lemma RenameExtends(io: IoPtr, a: Atom, written: set<nat>, n: Names)
    ensures Extends(Rename(io, a, written, n).1, n, a)
  {
    assert Renamed(io, a, written) ==> a == Ptr(a.id);
    hide Renamed;
  }

  lemma RenameValue<V>(t: Target<V>, io: IoPtr, a: Atom, written: set<nat>, n: Names, vars: map<nat, nat>, env: imap<nat, V>, env': imap<nat, V>)
    requires forall x :: x in Rename(io, a, written, n).1.vars ==> x in vars && vars[x] == Rename(io, a, written, n).1.vars[x]
    requires Agree(t, io, vars, written, env, env')
    ensures Value(t, Rename(io, a, written, n).0, env') == Value(t, a, env)
  {
  }

  /** The pass at one expression, from the names the rest of the program uses. */
  datatype Step = Step(expr: Expr, written: set<nat>, names: Names)

  /** The left-hand side keeps its name when this is the final write of an output. */
  predicate FinalWrite(io: IoPtr, x: nat, written: set<nat>) { io.Out(x) && x !in written }

  function PrettifyExpr(io: IoPtr, e: Expr, written: set<nat>, n: Names): Step
    requires io.In(e.lhs) || FinalWrite(io, e.lhs, written) || e.lhs in n.vars
  {
    var keep := io.In(e.lhs) || FinalWrite(io, e.lhs, written);
    var lhs := if keep then e.lhs else n.vars[e.lhs];
    var n0 := if keep then n else Names(n.vars - {e.lhs}, n.next);
    var w0 := if FinalWrite(io, e.lhs, written) then written + {e.lhs} else written;
    var (left, n1) := Rename(io, e.left, w0, n0);
    var (right, n2) := Rename(io, e.right, w0, n1);
    Step(Expr(lhs, left, e.op, right), w0, n2)
  }

  /** x kept its name, and is not the variable that was just written. */
  predicate StillNamed(io: IoPtr, lhs: nat, written: set<nat>, vars: map<nat, nat>, x: nat, name: nat) {
    x in vars && vars[x] == name && (x != lhs || FinalWrite(io, lhs, written))
  }

  lemma StepNames(io: IoPtr, start: nat, e: Expr, written: set<nat>, n: Names)
    requires NamesOk(io, start, written, n) && !io.In(e.lhs) && (FinalWrite(io, e.lhs, written) || e.lhs in n.vars)
    ensures NamesOk(io, start, PrettifyExpr(io, e, written, n).written, PrettifyExpr(io, e, written, n).names)
    ensures var s := PrettifyExpr(io, e, written, n);
      && n.next <= s.names.next
      && (forall x :: x in n.vars && (x != e.lhs || FinalWrite(io, e.lhs, written)) ==> x in s.names.vars && s.names.vars[x] == n.vars[x])
      && forall x :: x in s.names.vars ==> s.names.vars[x] > n.next || StillNamed(io, e.lhs, written, n.vars, x, s.names.vars[x])
  {
    var keep := FinalWrite(io, e.lhs, written);
    var n0 := if keep then n else Names(n.vars - {e.lhs}, n.next);
    var w0 := if keep then written + {e.lhs} else written;
    InjectiveRemove(n.vars, e.lhs);
    hide Injective;
    RenameKeepsNames(io, start, e.left, w0, n0);
    RenameExtends(io, e.left, w0, n0);
    var n1 := Rename(io, e.left, w0, n0).1;
    RenameKeepsNames(io, start, e.right, w0, n1);
    RenameExtends(io, e.right, w0, n1);
    hide Rename, Renamed;
  }

  /** Where the environments agree before the expression, they agree after it. */
  lemma StepAgrees<V>(t: Target<V>, io: IoPtr, start: nat, e: Expr, written: set<nat>, n: Names, env: imap<nat, V>, env': imap<nat, V>)
    requires NamesOk(io, start, written, n) && !io.In(e.lhs) && (FinalWrite(io, e.lhs, written) || e.lhs in n.vars)
    requires io.FreshFrom(start) && (e.op.Copy? ==> e.right == NoAtom)
    requires var s := PrettifyExpr(io, e, written, n); Agree(t, io, s.names.vars, s.written, env, env')
    ensures var s := PrettifyExpr(io, e, written, n);
      && Result(t, s.expr, env') == Result(t, e, env)
      && Agree(t, io, n.vars, written, env[e.lhs := Result(t, e, env)], env'[s.expr.lhs := Result(t, s.expr, env')])
  {
    StepValues(t, io, start, e, written, n, env, env');
    StepNames(io, start, e, written, n);
    var s := PrettifyExpr(io, e, written, n);
    var keep, v := FinalWrite(io, e.lhs, written), Result(t, e, env);
    assert s.expr.lhs == if keep then e.lhs else n.vars[e.lhs];
    assert s.written == if keep then written + {e.lhs} else written;
    InjectiveRemove(n.vars, e.lhs);
    hide Rename, PrettifyExpr, Result, Injective;
    WriteAgrees(t, io, start, e.lhs, written, n, s.expr.lhs, s.names.vars, s.written, env, env', v);
  }

  /** Storing the same value under the old and the new name keeps the agreement. */
  lemma WriteAgrees<V>(t: Target<V>, io: IoPtr, start: nat, lhs: nat, written: set<nat>, n: Names, lhs': nat,
                       vars: map<nat, nat>, written': set<nat>, env: imap<nat, V>, env': imap<nat, V>, v: V)
    requires NamesOk(io, start, written, n) && !io.In(lhs) && io.FreshFrom(start)
    requires if FinalWrite(io, lhs, written) then lhs' == lhs && written' == written + {lhs}
             else lhs in n.vars && lhs' == n.vars[lhs] && written' == written
    requires forall x :: x in n.vars && (x != lhs || FinalWrite(io, lhs, written)) ==> x in vars && vars[x] == n.vars[x]
    requires Agree(t, io, vars, written', env, env')
    ensures Agree(t, io, n.vars, written, env[lhs := v], env'[lhs' := v])
  {
    if lhs in n.vars { InjectiveRemove(n.vars, lhs); }
    hide Injective;
    assert lhs' == lhs || (!io.In(lhs') && !io.Out(lhs'));
    forall x | x in n.vars ensures Get(t, env'[lhs' := v], n.vars[x]) == Get(t, env[lhs := v], x) {
      if x != lhs {
        assert n.vars[x] != lhs';
        assert Get(t, env', n.vars[x]) == Get(t, env, x);
      } else {
        assert !FinalWrite(io, lhs, written);
      }
    }
    forall x | io.In(x) || (io.Out(x) && x !in written) ensures Get(t, env'[lhs' := v], x) == Get(t, env[lhs := v], x) {
    }
  }

  lemma StepValues<V>(t: Target<V>, io: IoPtr, start: nat, e: Expr, written: set<nat>, n: Names, env: imap<nat, V>, env': imap<nat, V>)
    requires NamesOk(io, start, written, n) && !io.In(e.lhs) && (FinalWrite(io, e.lhs, written) || e.lhs in n.vars)
    requires e.op.Copy? ==> e.right == NoAtom
    requires var s := PrettifyExpr(io, e, written, n); Agree(t, io, s.names.vars, s.written, env, env')
    ensures Result(t, PrettifyExpr(io, e, written, n).expr, env') == Result(t, e, env)
  {
    var s := PrettifyExpr(io, e, written, n);
    var keep := FinalWrite(io, e.lhs, written);
    var n0 := if keep then n else Names(n.vars - {e.lhs}, n.next);
    InjectiveRemove(n.vars, e.lhs);
    hide Injective;
    var n1 := Rename(io, e.left, s.written, n0).1;
    RenameExtends(io, e.right, s.written, n1);
    RenameValue(t, io, e.left, s.written, n0, s.names.vars, env, env');
    RenameValue(t, io, e.right, s.written, n1, s.names.vars, env, env');
    hide Rename, Renamed, Agree, NamesOk;
  }

  /** x is read before it is next written. */
  predicate ReadFirst(code: seq<Expr>, x: nat) {
    code != [] && (Reads(code[0], x) || (code[0].lhs != x && ReadFirst(code[1..], x)))
  }

  predicate WrittenIn(code: seq<Expr>, x: nat) { exists k :: 0 <= k < |code| && code[k].lhs == x }

  /** Every value that is overwritten, and every local value, is read. */
  ghost predicate NoDeadWrite(io: IoPtr, algo: seq<Expr>) {
    forall k {:trigger algo[k]} :: 0 <= k < |algo| && !FinalWriteAt(io, algo, k) ==> ReadFirst(algo[k + 1..], algo[k].lhs)
  }

  ghost predicate FinalWriteAt(io: IoPtr, algo: seq<Expr>, k: int)
    requires 0 <= k < |algo|
  {
    io.Out(algo[k].lhs) && !WrittenIn(algo[k + 1..], algo[k].lhs)
  }

  /** The written outputs and the renamed variables at a point of the backward walk. */
  ghost predicate Tracks(io: IoPtr, code: seq<Expr>, written: set<nat>, vars: map<nat, nat>) {
    && (forall x :: x in written <==> io.Out(x) && WrittenIn(code, x))
    && forall x :: x in vars <==> Renamed(io, Ptr(x), written) && ReadFirst(code, x)
  }

  lemma TracksStep(io: IoPtr, e: Expr, code: seq<Expr>, written: set<nat>, n: Names)
    requires !io.In(e.lhs) && (e.op.Copy? ==> e.right == NoAtom) && Tracks(io, code, written, n.vars)
    requires FinalWrite(io, e.lhs, written) || e.lhs in n.vars
    ensures var s := PrettifyExpr(io, e, written, n); Tracks(io, [e] + code, s.written, s.names.vars)
  {
    var s, all := PrettifyExpr(io, e, written, n), [e] + code;
    assert all[1..] == code;
    forall x ensures WrittenIn(all, x) <==> x == e.lhs || WrittenIn(code, x) {
      if WrittenIn(code, x) {
        var k :| 0 <= k < |code| && code[k].lhs == x;
        assert all[k + 1].lhs == x;
      }
      if x == e.lhs { assert all[0].lhs == x; }
    }
    hide WrittenIn;
    forall x ensures x in s.names.vars <==> Renamed(io, Ptr(x), s.written) && ReadFirst(all, x) {
    }
  }

  /** Renames backwards. The pass gives up on a dead write; otherwise every pointer is written
      once, and the outputs come out the same.
   */
  method PrettifyAlgo<V(!new)>(ghost t: Target<V>, io: IoPtr, algo: seq<Expr>, unused: nat) returns (ok: bool, pretty: seq<Expr>, next: nat)
    requires io.FreshFrom(unused) && Plain(algo) && WritesNoInput(io, algo)
    ensures ok <==> NoDeadWrite(io, algo)
    ensures ok ==> |pretty| == |algo| && OnceWritten(io, pretty) && Plain(pretty) && WritesNoInput(io, pretty)
    ensures unused <= next && (ok ==> Below(pretty, next))
    ensures ok && (forall x :: !io.In(x) ==> !ReadFirst(algo, x)) ==>
              forall env: imap<nat, V> {:trigger Run(t, algo, env)} :: SameOutputs(t, io, Run(t, algo, env), Run(t, pretty, env))
  {
    pretty := [];
    var n, written, k := Names(map[], unused), {}, |algo|;
    assert algo[k..] == [];
    while k > 0
      invariant 0 <= k <= |algo| && |pretty| == |algo| - k
      invariant NamesOk(io, unused, written, n) && Tracks(io, algo[k..], written, n.vars)
      invariant Prettified(t, io, algo[k..], pretty, n.vars, written)
      invariant OnceWritten(io, pretty) && LeftSides(io, unused, pretty, written, n)
      invariant unused <= n.next && Below(pretty, n.next) && Plain(pretty) && WritesNoInput(io, pretty)
      invariant forall j {:trigger algo[j]} :: k <= j < |algo| && !FinalWriteAt(io, algo, j) ==> ReadFirst(algo[j + 1..], algo[j].lhs)
    {
      k := k - 1;
      var e := algo[k];
      assert algo[k..] == [e] + algo[k + 1..];
      if !FinalWrite(io, e.lhs, written) && e.lhs !in n.vars {
        return false, pretty, n.next;
      }
      hide NamesOk, Prettified, OnceWritten, LeftSides, Below, Plain, WritesNoInput;
      var s := PrettifyExpr(io, e, written, n);
      StepNames(io, unused, e, written, n);
      PrettifiedStep(t, io, unused, e, algo[k + 1..], pretty, written, n);
      LeftSidesStep(io, unused, e, pretty, written, n);
      TracksStep(io, e, algo[k + 1..], written, n);
      PrettyBelow(io, unused, e, pretty, written, n);
      pretty, written, n := [s.expr] + pretty, s.written, s.names;
    }
    assert algo[0..] == algo;
    NothingPending(t, io, unused, algo, pretty, n.vars, written);
    return true, pretty, n.next;
  }

  /** All pointers of the finished part are below the ones that may still be handed out. */
  lemma PrettyBelow(io: IoPtr, start: nat, e: Expr, code: seq<Expr>, written: set<nat>, n: Names)
    requires NamesOk(io, start, written, n) && !io.In(e.lhs) && (FinalWrite(io, e.lhs, written) || e.lhs in n.vars)
    requires io.FreshFrom(start) && Below(code, n.next) && Plain(code) && WritesNoInput(io, code) && (e.op.Copy? ==> e.right == NoAtom)
    ensures var s := PrettifyExpr(io, e, written, n);
      start <= s.names.next && Below([s.expr] + code, s.names.next) && Plain([s.expr] + code) && WritesNoInput(io, [s.expr] + code)
  {
    var s := PrettifyExpr(io, e, written, n);
    hide NamesOk, PrettifyExpr, FinalWrite;
    PrettyExprBelow(io, start, e, written, n);
    forall k | 0 <= k < |[s.expr] + code|
      ensures var x := ([s.expr] + code)[k]; x.lhs <= s.names.next && AtomBelow(x.left, s.names.next) && AtomBelow(x.right, s.names.next)
      ensures var x := ([s.expr] + code)[k]; (x.op.Copy? ==> x.right == NoAtom) && !io.In(x.lhs)
    {
      if k > 0 { assert ([s.expr] + code)[k] == code[k - 1]; }
    }
  }

  lemma PrettyExprBelow(io: IoPtr, start: nat, e: Expr, written: set<nat>, n: Names)
    requires NamesOk(io, start, written, n) && !io.In(e.lhs) && (FinalWrite(io, e.lhs, written) || e.lhs in n.vars)
    requires io.FreshFrom(start) && (e.op.Copy? ==> e.right == NoAtom)
    ensures var s := PrettifyExpr(io, e, written, n); var x := s.expr;
      && start <= n.next <= s.names.next && x.lhs <= s.names.next && AtomBelow(x.left, s.names.next) && AtomBelow(x.right, s.names.next)
      && (x.op.Copy? ==> x.right == NoAtom) && !io.In(x.lhs)
  {
    var keep := FinalWrite(io, e.lhs, written);
    var n0 := if keep then n else Names(n.vars - {e.lhs}, n.next);
    var w0 := if keep then written + {e.lhs} else written;
    InjectiveRemove(n.vars, e.lhs);
    assert NamesOk(io, start, w0, n0);
    assert !keep ==> start < n.vars[e.lhs] <= n.next;
    hide Injective, NamesOk;
    RenameKeepsNames(io, start, e.left, w0, n0);
    var n1 := Rename(io, e.left, w0, n0).1;
    RenameBelow(io, start, e.left, w0, n0);
    RenameBelow(io, start, e.right, w0, n1);
    hide Rename;
  }

  lemma RenameBelow(io: IoPtr, start: nat, a: Atom, written: set<nat>, n: Names)
    requires NamesOk(io, start, written, n) && io.FreshFrom(start)
    ensures var (b, m) := Rename(io, a, written, n);
      n.next <= m.next && AtomBelow(b, m.next) && (a == NoAtom ==> b == NoAtom)
  {
  }

  lemma NothingPending<V(!new)>(t: Target<V>, io: IoPtr, unused: nat, algo: seq<Expr>, pretty: seq<Expr>, vars: map<nat, nat>, written: set<nat>)
    requires io.FreshFrom(unused) && Tracks(io, algo, written, vars) && Prettified(t, io, algo, pretty, vars, written)
    ensures (forall x :: !io.In(x) ==> !ReadFirst(algo, x)) ==>
              forall env: imap<nat, V> {:trigger Run(t, algo, env)} :: SameOutputs(t, io, Run(t, algo, env), Run(t, pretty, env))
  {
    if forall x :: !io.In(x) ==> !ReadFirst(algo, x) {
      forall env: imap<nat, V> ensures SameOutputs(t, io, Run(t, algo, env), Run(t, pretty, env)) {
        assert vars == map[];
        assert Agree(t, io, vars, written, env, env);
      }
    }
  }

  lemma PrettifiedStep<V(!new)>(t: Target<V>, io: IoPtr, start: nat, e: Expr, code: seq<Expr>, code': seq<Expr>, written: set<nat>, n: Names)
    requires NamesOk(io, start, written, n) && !io.In(e.lhs) && (FinalWrite(io, e.lhs, written) || e.lhs in n.vars)
    requires io.FreshFrom(start) && (e.op.Copy? ==> e.right == NoAtom) && Prettified(t, io, code, code', n.vars, written)
    ensures var s := PrettifyExpr(io, e, written, n);
      Prettified(t, io, [e] + code, [s.expr] + code', s.names.vars, s.written)
  {
    var s := PrettifyExpr(io, e, written, n);
    forall env: imap<nat, V>, env': imap<nat, V> {:trigger Agree(t, io, s.names.vars, s.written, env, env')}
      | Agree(t, io, s.names.vars, s.written, env, env')
      ensures SameOutputs(t, io, Run(t, [e] + code, env), Run(t, [s.expr] + code', env'))
    {
      StepAgrees(t, io, start, e, written, n, env, env');
      assert ([e] + code)[1..] == code && ([s.expr] + code')[1..] == code';
    }
  }

  /** No pointer is written twice. */
  ghost predicate OnceWritten(io: IoPtr, code: seq<Expr>) { forall i, j :: 0 <= i < j < |code| ==> code[i].lhs != code[j].lhs }

  /** What the finished part of the program writes: outputs in the set, and names no longer in use. */
  ghost predicate LeftSides(io: IoPtr, start: nat, code: seq<Expr>, written: set<nat>, n: Names) {
    forall i :: 0 <= i < |code| ==>
      if io.Out(code[i].lhs) then code[i].lhs in written
      else start < code[i].lhs <= n.next && forall x :: x in n.vars ==> n.vars[x] != code[i].lhs
  }

  lemma LeftSidesStep(io: IoPtr, start: nat, e: Expr, code: seq<Expr>, written: set<nat>, n: Names)
    requires NamesOk(io, start, written, n) && !io.In(e.lhs) && (FinalWrite(io, e.lhs, written) || e.lhs in n.vars)
    requires io.FreshFrom(start) && OnceWritten(io, code) && LeftSides(io, start, code, written, n)
    ensures var s := PrettifyExpr(io, e, written, n);
      OnceWritten(io, [s.expr] + code) && LeftSides(io, start, [s.expr] + code, s.written, s.names)
  {
    var s := PrettifyExpr(io, e, written, n);
    StepNames(io, start, e, written, n);
    var keep, lhs := FinalWrite(io, e.lhs, written), s.expr.lhs;
    assert lhs == if keep then e.lhs else n.vars[e.lhs];
    assert s.written == if keep then written + {e.lhs} else written;
    assert lhs <= n.next;
    InjectiveRemove(n.vars, e.lhs);
    hide PrettifyExpr, Injective, Rename, Renamed;
    forall x | x in s.names.vars ensures s.names.vars[x] != lhs || io.Out(lhs) {
    }
    forall i | 0 <= i < |code| ensures code[i].lhs != lhs {
      assert keep || e.lhs in n.vars;
    }
    forall i | 0 <= i < |code|
      ensures if io.Out(code[i].lhs) then code[i].lhs in s.written
              else start < code[i].lhs <= s.names.next && forall x :: x in s.names.vars ==> s.names.vars[x] != code[i].lhs
    {
    }
  }

  // ----- isolate_reads

  /** Inputs under their copies, everything else unchanged. */
  ghost predicate Copied<V>(t: Target<V>, unused: nat, vars: map<nat, nat>, env: imap<nat, V>, env': imap<nat, V>) {
    && (forall x: nat :: x <= unused ==> Get(t, env', x) == Get(t, env, x))
    && forall x :: x in vars ==> Get(t, env', vars[x]) == Get(t, env, x)
  }

  /** The copies of inputs made so far. */
  ghost predicate CopiesOk(io: IoPtr, unused: nat, n: Names) {
    unused <= n.next && forall x :: x in n.vars ==> io.In(x) && unused < n.vars[x] <= n.next
  }

  predicate AtomBelow(a: Atom, unused: nat) { a.Ptr? ==> a.id <= unused }

  /** The program uses no pointer that may be handed out. */
  predicate Below(code: seq<Expr>, unused: nat) {
    forall k :: 0 <= k < |code| ==> code[k].lhs <= unused && AtomBelow(code[k].left, unused) && AtomBelow(code[k].right, unused)
  }

  /** The copy of an operand, and the instruction that makes it if it is new. */
  function Isolate(io: IoPtr, a: Atom, n: Names): (Atom, seq<Expr>, Names) {
    if !(a.Ptr? && io.In(a.id)) then (a, [], n)
    else if a.id in n.vars then (Ptr(n.vars[a.id]), [], n)
    else (Ptr(n.next + 1), [Expr(n.next + 1, a, Copy, NoAtom)], Names(n.vars[a.id := n.next + 1], n.next + 1))
  }

  lemma IsolateOk<V>(t: Target<V>, io: IoPtr, unused: nat, a: Atom, n: Names, env: imap<nat, V>, env': imap<nat, V>)
    requires CopiesOk(io, unused, n) && AtomBelow(a, unused) && Copied(t, unused, n.vars, env, env')
    ensures var (b, made, m) := Isolate(io, a, n);
      && CopiesOk(io, unused, m) && n.next <= m.next && (b.Ptr? ==> !io.In(b.id) || b.id > unused)
      && Copied(t, unused, m.vars, env, Run(t, made, env')) && Value(t, b, Run(t, made, env')) == Value(t, a, env)
      && (forall x: nat :: x <= n.next ==> Get(t, Run(t, made, env'), x) == Get(t, env', x))
      && (a.Ptr? && !io.In(a.id) ==> b == a)
  {
    var (b, made, m) := Isolate(io, a, n);
    if made != [] { assert made[1..] == []; }
  }

  /** One expression with its operands isolated. */
  function IsolateExpr(io: IoPtr, e: Expr, n: Names): (seq<Expr>, Names) {
    if e.op.Copy? then ([e], n)
    else
      var (left, l, n1) := Isolate(io, e.left, n);
      var (right, r, n2) := Isolate(io, e.right, n1);
      (l + r + [Expr(e.lhs, left, e.op, right)], n2)
  }

  lemma CopiedWrite<V>(t: Target<V>, io: IoPtr, unused: nat, n: Names, env: imap<nat, V>, env': imap<nat, V>, lhs: nat, v: V)
    requires CopiesOk(io, unused, n) && Copied(t, unused, n.vars, env, env') && lhs <= unused && !io.In(lhs)
    ensures Copied(t, unused, n.vars, env[lhs := v], env'[lhs := v])
  {
    var a, b := env[lhs := v], env'[lhs := v];
    forall x: nat ensures Get(t, a, x) == (if x == lhs then v else Get(t, env, x)) && Get(t, b, x) == (if x == lhs then v else Get(t, env', x)) {
    }
    hide Get;
    forall x | x in n.vars ensures Get(t, b, n.vars[x]) == Get(t, a, x) {
      assert Get(t, env', n.vars[x]) == Get(t, env, x);
      assert x != lhs && n.vars[x] != lhs;
    }
  }

  lemma IsolateStep<V>(t: Target<V>, io: IoPtr, unused: nat, e: Expr, n: Names, env: imap<nat, V>, env': imap<nat, V>)
    requires CopiesOk(io, unused, n) && !io.In(e.lhs) && Below([e], unused) && Copied(t, unused, n.vars, env, env')
    ensures var (made, m) := IsolateExpr(io, e, n);
      CopiesOk(io, unused, m) && Copied(t, unused, m.vars, env[e.lhs := Result(t, e, env)], Run(t, made, env'))
  {
    assert [e][0] == e;
    if e.op.Copy? {
      RunOne(t, e, env');
      assert Result(t, e, env') == Result(t, e, env);
      CopiedWrite(t, io, unused, n, env, env', e.lhs, Result(t, e, env));
    } else {
      var (left, l, n1) := Isolate(io, e.left, n);
      var env1 := Run(t, l, env');
      IsolateOk(t, io, unused, e.left, n, env, env');
      IsolateOk(t, io, unused, e.right, n1, env, env1);
      var (right, r, n2) := Isolate(io, e.right, n1);
      var env2 := Run(t, r, env1);
      var last := Expr(e.lhs, left, e.op, right);
      RunAppend(t, l, r, env');
      RunAppend(t, l + r, [last], env');
      RunOne(t, last, env2);
      assert left.Ptr? ==> left.id <= n1.next;
      assert Value(t, left, env2) == Value(t, left, env1);
      assert Result(t, last, env2) == Result(t, e, env);
      CopiedWrite(t, io, unused, n2, env, env2, e.lhs, Result(t, e, env));
    }
  }

  /** No operator reads an input. */
  predicate ReadsIsolated(io: IoPtr, code: seq<Expr>) {
    forall k :: 0 <= k < |code| && code[k].op.Binary? ==> IsolatedAtom(io, code[k].left) && IsolatedAtom(io, code[k].right)
  }

  predicate IsolatedAtom(io: IoPtr, a: Atom) { a.Ptr? ==> !io.In(a.id) }

  lemma IsolatedStep(io: IoPtr, unused: nat, e: Expr, n: Names)
    requires CopiesOk(io, unused, n) && io.FreshFrom(unused)
    ensures ReadsIsolated(io, IsolateExpr(io, e, n).0)
  {
  }

  ghost predicate Isolated<V(!new)>(t: Target<V>, unused: nat, code: seq<Expr>, code': seq<Expr>, vars: map<nat, nat>) {
    forall env: imap<nat, V> {:trigger Run(t, code, env)} :: Copied(t, unused, vars, Run(t, code, env), Run(t, code', env))
  }

  lemma IsolatedExtend<V(!new)>(t: Target<V>, io: IoPtr, unused: nat, code: seq<Expr>, code': seq<Expr>, e: Expr, n: Names)
    requires CopiesOk(io, unused, n) && !io.In(e.lhs) && Below([e], unused) && Isolated(t, unused, code, code', n.vars)
    ensures var (made, m) := IsolateExpr(io, e, n); CopiesOk(io, unused, m) && Isolated(t, unused, code + [e], code' + made, m.vars)
  {
    var (made, m) := IsolateExpr(io, e, n);
    forall env: imap<nat, V> {:trigger Run(t, code + [e], env)}
      ensures CopiesOk(io, unused, m) && Copied(t, unused, m.vars, Run(t, code + [e], env), Run(t, code' + made, env))
    {
      RunAppend(t, code, [e], env);
      RunAppend(t, code', made, env);
      assert [e][1..] == [];
      IsolateStep(t, io, unused, e, n, Run(t, code, env), Run(t, code', env));
    }
    IsolateNames(io, unused, e, n);
  }

  lemma IsolateNames(io: IoPtr, unused: nat, e: Expr, n: Names)
    requires CopiesOk(io, unused, n)
    ensures CopiesOk(io, unused, IsolateExpr(io, e, n).1)
  {
  }

  lemma IsolatedBelow(io: IoPtr, unused: nat, code: seq<Expr>, e: Expr, n: Names)
    requires CopiesOk(io, unused, n) && io.FreshFrom(unused) && Below([e], unused) && Below(code, n.next) && WritesNoInput(io, code)
    requires !io.In(e.lhs)
    ensures var (made, m) := IsolateExpr(io, e, n); n.next <= m.next && Below(code + made, m.next) && WritesNoInput(io, code + made)
  {
    assert [e][0] == e;
  }

  /** Every input that an operator reads is copied once, before its first such use. */
  method IsolateReads<V(!new)>(ghost t: Target<V>, io: IoPtr, algo: seq<Expr>, unused: nat) returns (isolated: seq<Expr>, next: nat)
    requires io.FreshFrom(unused) && Below(algo, unused) && WritesNoInput(io, algo)
    ensures ReadsIsolated(io, isolated)
    ensures unused <= next && Below(isolated, next) && WritesNoInput(io, isolated)
    ensures forall env: imap<nat, V>, x: nat {:trigger Get(t, Run(t, isolated, env), x)} ::
              x <= unused ==> Get(t, Run(t, isolated, env), x) == Get(t, Run(t, algo, env), x)
  {
    isolated := [];
    var n := Names(map[], unused);
    assert algo[..0] == [];
    for k := 0 to |algo|
      invariant CopiesOk(io, unused, n) && ReadsIsolated(io, isolated) && Below(isolated, n.next) && WritesNoInput(io, isolated)
      invariant Isolated(t, unused, algo[..k], isolated, n.vars)
    {
      assert algo[..k + 1] == algo[..k] + [algo[k]];
      IsolatedExtend(t, io, unused, algo[..k], isolated, algo[k], n);
      IsolatedStep(io, unused, algo[k], n);
      IsolatedBelow(io, unused, isolated, algo[k], n);
      var (made, m) := IsolateExpr(io, algo[k], n);
      isolated, n := isolated + made, m;
    }
    assert algo[..|algo|] == algo;
    next := n.next;
    forall env: imap<nat, V>, x: nat {:trigger Get(t, Run(t, isolated, env), x)} | x <= unused
      ensures Get(t, Run(t, isolated, env), x) == Get(t, Run(t, algo, env), x)
    {
      assert Copied(t, unused, n.vars, Run(t, algo, env), Run(t, isolated, env));
    }
  }
}
