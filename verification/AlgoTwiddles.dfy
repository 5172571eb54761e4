/** Twiddle factors on the inputs or outputs of a straight-line program, and the isolation of writes. */
module AlgoTwiddles {
  import opened AlgoPasses

  // ----- sorting the multiplications

  function InsertSorted(e: Expr, s: seq<Expr>): seq<Expr> {
    if s == [] || e.lhs < s[0].lhs then [e] + s else [s[0]] + InsertSorted(e, s[1..])
  }

  /** The stable sort by left-hand side. */
  function Sorted(s: seq<Expr>): seq<Expr> {
    if s == [] then [] else InsertSorted(s[|s| - 1], Sorted(s[..|s| - 1]))
  }

  /** Adjacent equal expressions are kept once. */
  function Unique(s: seq<Expr>): seq<Expr> {
    if |s| <= 1 then s else if s[0] == s[1] then Unique(s[1..]) else [s[0]] + Unique(s[1..])
  }

  ghost predicate Ascending(s: seq<Expr>) { forall i, j :: 0 <= i < j < |s| ==> s[i].lhs <= s[j].lhs }

  ghost predicate Increasing(s: seq<Expr>) { forall i, j :: 0 <= i < j < |s| ==> s[i].lhs < s[j].lhs }

  /** Expressions with the same left-hand side are the same. */
  ghost predicate LhsDetermines(s: seq<Expr>) { forall e, f :: e in s && f in s && e.lhs == f.lhs ==> e == f }

  lemma {:induction false} InsertFacts(e: Expr, s: seq<Expr>)
    requires Ascending(s)
    ensures Ascending(InsertSorted(e, s))
    ensures forall f :: f in InsertSorted(e, s) <==> f == e || f in s
  {
    if s != [] && e.lhs >= s[0].lhs {
      var rest := InsertSorted(e, s[1..]);
      InsertFacts(e, s[1..]);
      assert s == [s[0]] + s[1..];
      forall f | f in rest ensures s[0].lhs <= f.lhs {
      }
    } else if s != [] {
      assert s == [s[0]] + s[1..];
    }
  }

  lemma {:induction false} SortedFacts(s: seq<Expr>)
    ensures Ascending(Sorted(s)) && forall f :: f in Sorted(s) <==> f in s
  {
    if s != [] {
      var front := s[..|s| - 1];
      SortedFacts(front);
      InsertFacts(s[|s| - 1], Sorted(front));
      assert s == front + [s[|s| - 1]];
    }
  }

  lemma HeadLess(s: seq<Expr>, f: Expr)
    requires Ascending(s) && LhsDetermines(s) && |s| > 1 && s[0] != s[1] && f in s[1..]
    ensures s[0].lhs < f.lhs
  {
    var i :| 0 <= i < |s| - 1 && s[1..][i] == f;
    assert s[0] in s && s[1] in s;
    assert s[0].lhs <= s[1].lhs && (i == 0 || s[1].lhs <= s[i + 1].lhs);
  }

  lemma {:induction false} UniqueFacts(s: seq<Expr>)
    requires Ascending(s) && LhsDetermines(s)
    ensures Increasing(Unique(s)) && forall f :: f in Unique(s) <==> f in s
  {
    if |s| > 1 {
      var rest := s[1..];
      assert s == [s[0]] + rest && s[1] in rest;
      UniqueFacts(rest);
      if s[0] != s[1] {
        forall f | f in rest ensures s[0].lhs < f.lhs { HeadLess(s, f); }
        PrependIncreasing(s[0], Unique(rest));
      }
    }
  }

  lemma PrependIncreasing(e: Expr, s: seq<Expr>)
    requires Increasing(s) && forall f :: f in s ==> e.lhs < f.lhs
    ensures Increasing([e] + s) && forall f :: f in [e] + s <==> f == e || f in s
  {
  }

  /** Nothing happens to a list that is already in strictly increasing order. */
  lemma {:induction false} SortedAlready(s: seq<Expr>)
    requires Increasing(s)
    ensures Sorted(s) == s
  {
    if s != [] {
      var front, e := s[..|s| - 1], s[|s| - 1];
      SortedAlready(front);
      InsertLast(e, front);
    }
  }

  lemma {:induction false} InsertLast(e: Expr, s: seq<Expr>)
    requires forall i :: 0 <= i < |s| ==> s[i].lhs < e.lhs
    ensures InsertSorted(e, s) == s + [e]
  {
    if s != [] { InsertLast(e, s[1..]); }
  }

  lemma {:induction false} UniqueAlready(s: seq<Expr>)
    requires Increasing(s)
    ensures Unique(s) == s
  {
    if |s| > 1 { UniqueAlready(s[1..]); }
  }

  // ----- twiddled inputs

  predicate NeedsTwiddle(io: IoPtr, a: Atom) { a.Ptr? && io.In(a.id) && a.id > io.inBegin }

  /** io_perm gives every input but the first a factor. */
  ghost predicate InputPerm(io: IoPtr, perm: seq<int>) {
    io.inEnd - io.inBegin <= |perm| && forall i :: 0 < i < |perm| ==> perm[i] > 0
  }

  function InputMul(io: IoPtr, perm: seq<int>, a: Atom, id: nat): Expr
    requires InputPerm(io, perm) && NeedsTwiddle(io, a)
  {
    Expr(id, a, Binary('*'), WPtr(perm[a.id - io.inBegin] - 1))
  }

  /** The inputs as the program should see them. */
  ghost function TwiddledInputs<V>(t: Target<V>, io: IoPtr, perm: seq<int>, env: imap<nat, V>): imap<nat, V>
    requires InputPerm(io, perm)
  {
    imap x: nat :: if io.In(x) && x > io.inBegin then t.apply(('*', Get(t, env, x), t.factor(perm[x - io.inBegin] - 1))) else Get(t, env, x)
  }

  /** One operand after the pass: a twiddled input became one of the products. */
  ghost predicate OperandTwiddled(io: IoPtr, perm: seq<int>, a: Atom, a': Atom, muls: seq<Expr>)
    requires InputPerm(io, perm)
  {
    if NeedsTwiddle(io, a) then a'.Ptr? && InputMul(io, perm, a, a'.id) in muls else a' == a
  }

  ghost predicate ExprTwiddled(io: IoPtr, perm: seq<int>, e: Expr, e': Expr, muls: seq<Expr>)
    requires InputPerm(io, perm)
  {
    && e'.lhs == e.lhs && e'.op == e.op
    && OperandTwiddled(io, perm, e.left, e'.left, muls) && OperandTwiddled(io, perm, e.right, e'.right, muls)
  }

  /** Products are new variables computed from inputs. */
  ghost predicate InputMuls(io: IoPtr, perm: seq<int>, unused: nat, next: nat, muls: seq<Expr>)
    requires InputPerm(io, perm)
  {
    && Increasing(muls)
    && forall m :: m in muls ==> unused < m.lhs <= next && NeedsTwiddle(io, m.left) && m == InputMul(io, perm, m.left, m.lhs)
  }

  /** How the program on twiddled inputs and the rewritten program correspond. */
  ghost predicate Corresponds<V>(t: Target<V>, io: IoPtr, perm: seq<int>, unused: nat, muls: seq<Expr>,
                                 env0: imap<nat, V>, env: imap<nat, V>, env': imap<nat, V>)
    requires InputPerm(io, perm)
  {
    && (forall x: nat :: x <= unused && !io.In(x) ==> Get(t, env', x) == Get(t, env, x))
    && (forall x: nat :: io.In(x) ==> Get(t, env', x) == Get(t, env0, x) && Get(t, env, x) == Get(t, TwiddledInputs(t, io, perm, env0), x))
    && forall m :: m in muls ==> m.left.Ptr? && Get(t, env', m.lhs) == Get(t, TwiddledInputs(t, io, perm, env0), m.left.id)
  }

  /** Computing the products first establishes the correspondence. */
  lemma {:induction false} MulsRun<V>(t: Target<V>, io: IoPtr, perm: seq<int>, unused: nat, next: nat, muls: seq<Expr>, env: imap<nat, V>)
    requires InputPerm(io, perm) && InputMuls(io, perm, unused, next, muls) && io.FreshFrom(unused)
    ensures Corresponds(t, io, perm, unused, muls, env, TwiddledInputs(t, io, perm, env), Run(t, muls, env))
    ensures forall x: nat :: x <= unused ==> Get(t, Run(t, muls, env), x) == Get(t, env, x)
    decreases |muls|
  {
    if muls != [] {
      var front, m := muls[..|muls| - 1], muls[|muls| - 1];
      assert muls == front + [m] && m in muls;
      MulsRun(t, io, perm, unused, next, front, env);
      RunAppend(t, front, [m], env);
      RunOne(t, m, Run(t, front, env));
      MulStep(t, io, perm, unused, next, front, m, env, Run(t, front, env));
    }
  }

  lemma MulStep<V>(t: Target<V>, io: IoPtr, perm: seq<int>, unused: nat, next: nat, front: seq<Expr>, m: Expr, env: imap<nat, V>, before: imap<nat, V>)
    requires InputPerm(io, perm) && InputMuls(io, perm, unused, next, front + [m]) && io.FreshFrom(unused)
    requires Corresponds(t, io, perm, unused, front, env, TwiddledInputs(t, io, perm, env), before)
    requires forall x: nat :: x <= unused ==> Get(t, before, x) == Get(t, env, x)
    ensures var after := before[m.lhs := Result(t, m, before)];
      && Corresponds(t, io, perm, unused, front + [m], env, TwiddledInputs(t, io, perm, env), after)
      && forall x: nat :: x <= unused ==> Get(t, after, x) == Get(t, env, x)
  {
    assert m in front + [m];
    var after := before[m.lhs := Result(t, m, before)];
    forall x: nat ensures Get(t, after, x) == if x == m.lhs then Result(t, m, before) else Get(t, before, x) {
    }
    assert Result(t, m, before) == Get(t, TwiddledInputs(t, io, perm, env), m.left.id);
    hide Get, Result, TwiddledInputs;
    forall p | p in front + [m] ensures p.left.Ptr? && Get(t, after, p.lhs) == Get(t, TwiddledInputs(t, io, perm, env), p.left.id) {
      if p != m {
        assert p in front;
        DifferentLhs(front, m, p);
      }
    }
  }

  lemma DifferentLhs(front: seq<Expr>, m: Expr, p: Expr)
    requires Increasing(front + [m]) && p in front
    ensures p.lhs < m.lhs
  {
    var i :| 0 <= i < |front| && front[i] == p;
    assert (front + [m])[i] == p && (front + [m])[|front|] == m;
  }

  lemma OperandValue<V>(t: Target<V>, io: IoPtr, perm: seq<int>, unused: nat, muls: seq<Expr>, a: Atom, a': Atom,
                        env0: imap<nat, V>, env: imap<nat, V>, env': imap<nat, V>)
    requires InputPerm(io, perm) && OperandTwiddled(io, perm, a, a', muls) && AtomBelow(a, unused)
    requires Corresponds(t, io, perm, unused, muls, env0, env, env')
    ensures Value(t, a', env') == Value(t, a, env)
  {
    if NeedsTwiddle(io, a) {
      assert InputMul(io, perm, a, a'.id) in muls;
    } else if a.Ptr? && io.In(a.id) {
      assert Get(t, TwiddledInputs(t, io, perm, env0), a.id) == Get(t, env0, a.id);
    }
  }

  lemma {:induction false} TwiddledRun<V>(t: Target<V>, io: IoPtr, perm: seq<int>, unused: nat, next: nat, muls: seq<Expr>,
                                          code: seq<Expr>, code': seq<Expr>, env0: imap<nat, V>, env: imap<nat, V>, env': imap<nat, V>)
    requires InputPerm(io, perm) && InputMuls(io, perm, unused, next, muls) && Below(code, unused) && WritesNoInput(io, code)
    requires |code'| == |code| && forall k :: 0 <= k < |code| ==> ExprTwiddled(io, perm, code[k], code'[k], muls)
    requires Corresponds(t, io, perm, unused, muls, env0, env, env')
    ensures Corresponds(t, io, perm, unused, muls, env0, Run(t, code, env), Run(t, code', env'))
  {
    if code != [] {
      var e, e' := code[0], code'[0];
      assert ExprTwiddled(io, perm, e, e', muls);
      OperandValue(t, io, perm, unused, muls, e.left, e'.left, env0, env, env');
      OperandValue(t, io, perm, unused, muls, e.right, e'.right, env0, env, env');
      var v := Result(t, e, env);
      assert Result(t, e', env') == v;
      hide Result, OperandTwiddled;
      WriteCorresponds(t, io, perm, unused, next, muls, env0, env, env', e.lhs, v);
      TwiddledRun(t, io, perm, unused, next, muls, code[1..], code'[1..], env0, env[e.lhs := v], env'[e.lhs := v]);
    }
  }

  lemma WriteCorresponds<V>(t: Target<V>, io: IoPtr, perm: seq<int>, unused: nat, next: nat, muls: seq<Expr>,
                            env0: imap<nat, V>, env: imap<nat, V>, env': imap<nat, V>, lhs: nat, v: V)
    requires InputPerm(io, perm) && InputMuls(io, perm, unused, next, muls) && lhs <= unused && !io.In(lhs)
    requires Corresponds(t, io, perm, unused, muls, env0, env, env')
    ensures Corresponds(t, io, perm, unused, muls, env0, env[lhs := v], env'[lhs := v])
  {
    var a, b := env[lhs := v], env'[lhs := v];
    forall x: nat ensures Get(t, a, x) == (if x == lhs then v else Get(t, env, x)) && Get(t, b, x) == (if x == lhs then v else Get(t, env', x)) {
    }
    hide Get, TwiddledInputs, Increasing;
  }

  method TwiddleOperand(io: IoPtr, perm: seq<int>, a: Atom, muls: seq<Expr>, unused: nat, next: nat)
    returns (a': Atom, muls': seq<Expr>, next': nat)
    requires InputPerm(io, perm) && unused <= next && InputMuls(io, perm, unused, next, muls)
    ensures next <= next' && InputMuls(io, perm, unused, next', muls') && muls <= muls'
    ensures OperandTwiddled(io, perm, a, a', muls')
  {
    a', muls', next' := a, muls, next;
    if NeedsTwiddle(io, a) {
      next' := next + 1;
      muls' := muls + [InputMul(io, perm, a, next')];
      a' := Ptr(next');
      assert muls'[|muls|] == InputMul(io, perm, a, next');
    }
  }

  lemma MoreMuls(io: IoPtr, perm: seq<int>, code: seq<Expr>, code': seq<Expr>, muls: seq<Expr>, muls': seq<Expr>)
    requires InputPerm(io, perm) && muls <= muls' && |code| == |code'|
    requires forall k :: 0 <= k < |code| ==> ExprTwiddled(io, perm, code[k], code'[k], muls)
    ensures forall k :: 0 <= k < |code| ==> ExprTwiddled(io, perm, code[k], code'[k], muls')
  {
    forall m | m in muls ensures m in muls' {
      var i :| 0 <= i < |muls| && muls[i] == m;
      assert muls'[i] == m;
    }
    forall k | 0 <= k < |code| ensures ExprTwiddled(io, perm, code[k], code'[k], muls') {
      assert ExprTwiddled(io, perm, code[k], code'[k], muls);
    }
  }

  /** Twiddles on the inputs: the result computes from plain inputs what the program computes
      from twiddled ones.
   */
  method TwiddleInputs<V(!new)>(ghost t: Target<V>, algo: seq<Expr>, io: IoPtr, perm: seq<int>, unused: nat)
    returns (twiddled: seq<Expr>, next: nat)
    requires InputPerm(io, perm) && io.FreshFrom(unused) && Below(algo, unused) && WritesNoInput(io, algo)
    ensures unused <= next && Below(twiddled, next) && WritesNoInput(io, twiddled)
    ensures forall env: imap<nat, V>, x: nat {:trigger Get(t, Run(t, twiddled, env), x)} :: x <= unused && !io.In(x) ==>
              Get(t, Run(t, twiddled, env), x) == Get(t, Run(t, algo, TwiddledInputs(t, io, perm, env)), x)
  {
    var muls: seq<Expr>, code: seq<Expr> := [], [];
    next := unused;
    for k := 0 to |algo|
      invariant unused <= next && InputMuls(io, perm, unused, next, muls)
      invariant |code| == k && forall j :: 0 <= j < k ==> ExprTwiddled(io, perm, algo[j], code[j], muls)
    {
      var e := algo[k];
      var left, muls1, next1 := TwiddleOperand(io, perm, e.left, muls, unused, next);
      var right, muls2, next2 := TwiddleOperand(io, perm, e.right, muls1, unused, next1);
      hide ExprTwiddled, InputMuls;
      MoreMuls(io, perm, algo[..k], code, muls, muls2);
      StillTwiddled(io, perm, e.left, left, muls1, muls2);
      assert ExprTwiddled(io, perm, e, Expr(e.lhs, left, e.op, right), muls2) by { TwiddledExpr(io, perm, e, left, right, muls2); }
      code := code + [Expr(e.lhs, left, e.op, right)];
      muls, next := muls2, next2;
    }
    SortedAlready(muls);
    UniqueAlready(muls);
    twiddled := Unique(Sorted(muls)) + code;
    TwiddledBelow(io, perm, unused, next, algo, code, muls);
    forall env: imap<nat, V>, x: nat {:trigger Get(t, Run(t, twiddled, env), x)} | x <= unused && !io.In(x)
      ensures Get(t, Run(t, twiddled, env), x) == Get(t, Run(t, algo, TwiddledInputs(t, io, perm, env)), x)
    {
      RunAppend(t, muls, code, env);
      MulsRun(t, io, perm, unused, next, muls, env);
      TwiddledRun(t, io, perm, unused, next, muls, algo, code, env, TwiddledInputs(t, io, perm, env), Run(t, muls, env));
    }
  }

  lemma TwiddledBelow(io: IoPtr, perm: seq<int>, unused: nat, next: nat, algo: seq<Expr>, code: seq<Expr>, muls: seq<Expr>)
    requires InputPerm(io, perm) && io.FreshFrom(unused) && unused <= next && Below(algo, unused) && WritesNoInput(io, algo)
    requires InputMuls(io, perm, unused, next, muls) && |code| == |algo| && forall k :: 0 <= k < |algo| ==> ExprTwiddled(io, perm, algo[k], code[k], muls)
    ensures Below(muls + code, next) && WritesNoInput(io, muls + code)
  {
    forall k | 0 <= k < |algo|
      ensures code[k].lhs <= unused && !io.In(code[k].lhs) && AtomBelow(code[k].left, next) && AtomBelow(code[k].right, next)
    {
      assert ExprTwiddled(io, perm, algo[k], code[k], muls);
    }
  }

  lemma StillTwiddled(io: IoPtr, perm: seq<int>, a: Atom, a': Atom, muls: seq<Expr>, muls': seq<Expr>)
    requires InputPerm(io, perm) && muls <= muls' && OperandTwiddled(io, perm, a, a', muls)
    ensures OperandTwiddled(io, perm, a, a', muls')
  {
    if NeedsTwiddle(io, a) {
      var i :| 0 <= i < |muls| && muls[i] == InputMul(io, perm, a, a'.id);
      assert muls'[i] == muls[i];
    }
  }

  lemma TwiddledExpr(io: IoPtr, perm: seq<int>, e: Expr, left: Atom, right: Atom, muls: seq<Expr>)
    requires InputPerm(io, perm) && OperandTwiddled(io, perm, e.left, left, muls) && OperandTwiddled(io, perm, e.right, right, muls)
    ensures ExprTwiddled(io, perm, e, Expr(e.lhs, left, e.op, right), muls)
  {
  }

  // ----- twiddled outputs

  /** io_perm keeps every output but the first within the transform length. */
  ghost predicate OutputPerm(io: IoPtr, perm: seq<int>, n: int) {
    io.outEnd - io.outBegin <= |perm| && forall i :: 0 < i < |perm| ==> perm[i] < n
  }

  function OutputMul(io: IoPtr, perm: seq<int>, n: int, x: nat): Expr
    requires OutputPerm(io, perm, n) && io.Out(x) && x > io.outBegin
  {
    Expr(x, Ptr(x), Binary('*'), WPtr(n - perm[x - io.outBegin] - 1))
  }

  ghost predicate OutputMuls(io: IoPtr, perm: seq<int>, n: int, muls: seq<Expr>)
    requires OutputPerm(io, perm, n)
  {
    forall m :: m in muls ==> io.Out(m.lhs) && m.lhs > io.outBegin && m == OutputMul(io, perm, n, m.lhs)
  }

  /** Some product multiplies x. */
  ghost predicate Multiplied(muls: seq<Expr>, x: nat) { exists m :: m in muls && m.lhs == x }

  lemma MultipliedSame(a: seq<Expr>, b: seq<Expr>)
    requires forall m :: m in a <==> m in b
    ensures forall x :: Multiplied(a, x) <==> Multiplied(b, x)
  {
  }

  lemma MultipliedAppend(muls: seq<Expr>, m: Expr, x: nat)
    ensures Multiplied(muls + [m], x) <==> Multiplied(muls, x) || m.lhs == x
  {
    if Multiplied(muls, x) {
      var p :| p in muls && p.lhs == x;
      assert p in muls + [m];
    }
    assert m in muls + [m];
  }

  /** Each product multiplies one output once. */
  lemma {:induction false} OutputMulsRun<V>(t: Target<V>, io: IoPtr, perm: seq<int>, n: int, muls: seq<Expr>, env: imap<nat, V>, x: nat)
    requires OutputPerm(io, perm, n) && OutputMuls(io, perm, n, muls) && Increasing(muls)
    ensures Get(t, Run(t, muls, env), x) ==
            if Multiplied(muls, x) then Result(t, OutputMul(io, perm, n, x), env) else Get(t, env, x)
    decreases |muls|
  {
    if muls != [] {
      var m, rest := muls[0], muls[1..];
      assert muls == [m] + rest && m in muls;
      OutputMulsRun(t, io, perm, n, rest, env[m.lhs := Result(t, m, env)], x);
      forall p | p in rest ensures p.lhs != m.lhs {
        var i :| 0 <= i < |rest| && rest[i] == p;
        assert muls[i + 1] == p;
      }
    }
  }

  /** Twiddles on the outputs: every written output but the first is multiplied once, at the end. */
  method TwiddleOutputs<V(!new)>(ghost t: Target<V>, algo: seq<Expr>, n: int, io: IoPtr, perm: seq<int>) returns (twiddled: seq<Expr>)
    requires OutputPerm(io, perm, n)
    ensures forall env: imap<nat, V>, x: nat {:trigger Get(t, Run(t, twiddled, env), x)} ::
              Get(t, Run(t, twiddled, env), x) ==
              if io.Out(x) && x > io.outBegin && WrittenIn(algo, x)
              then t.apply(('*', Get(t, Run(t, algo, env), x), t.factor(n - perm[x - io.outBegin] - 1)))
              else Get(t, Run(t, algo, env), x)
  {
    var muls: seq<Expr> := [];
    NoMuls(algo, io);
    for k := 0 to |algo|
      invariant OutputMuls(io, perm, n, muls)
      invariant MulsSoFar(algo, k, io, muls)
    {
      ghost var before := muls;
      if io.Out(algo[k].lhs) && algo[k].lhs - io.outBegin > 0 {
        muls := muls + [OutputMul(io, perm, n, algo[k].lhs)];
      }
      MulAdded(algo, k, k + 1, io, perm, n, before, muls);
    }
    var last := Unique(Sorted(muls));
    MulsSorted(io, perm, n, muls);
    twiddled := algo + last;
    hide OutputMuls, Increasing, Multiplied;
    forall env: imap<nat, V>, x: nat {:trigger Get(t, Run(t, twiddled, env), x)}
      ensures Get(t, Run(t, twiddled, env), x) ==
              if io.Out(x) && x > io.outBegin && WrittenIn(algo, x)
              then t.apply(('*', Get(t, Run(t, algo, env), x), t.factor(n - perm[x - io.outBegin] - 1)))
              else Get(t, Run(t, algo, env), x)
    {
      OutputTwiddled(t, algo, n, io, perm, muls, last, env, x);
    }
  }

  lemma OutputTwiddled<V>(t: Target<V>, algo: seq<Expr>, n: int, io: IoPtr, perm: seq<int>, muls: seq<Expr>, last: seq<Expr>,
                          env: imap<nat, V>, x: nat)
    requires OutputPerm(io, perm, n) && OutputMuls(io, perm, n, last) && Increasing(last) && MulsSoFar(algo, |algo|, io, muls)
    requires forall x :: Multiplied(last, x) <==> Multiplied(muls, x)
    ensures Get(t, Run(t, algo + last, env), x) ==
            if io.Out(x) && x > io.outBegin && WrittenIn(algo, x)
            then t.apply(('*', Get(t, Run(t, algo, env), x), t.factor(n - perm[x - io.outBegin] - 1)))
            else Get(t, Run(t, algo, env), x)
  {
    RunAppend(t, algo, last, env);
    OutputMulsRun(t, io, perm, n, last, Run(t, algo, env), x);
    assert WrittenBefore(algo, |algo|, x) == WrittenIn(algo, x);
    hide OutputMuls, Increasing, Multiplied, WrittenBefore, WrittenIn, Run, Get;
  }

  lemma MulsSorted(io: IoPtr, perm: seq<int>, n: int, muls: seq<Expr>)
    requires OutputPerm(io, perm, n) && OutputMuls(io, perm, n, muls)
    ensures OutputMuls(io, perm, n, Unique(Sorted(muls))) && Increasing(Unique(Sorted(muls)))
    ensures forall x :: Multiplied(Unique(Sorted(muls)), x) <==> Multiplied(muls, x)
  {
    SortedFacts(muls);
    UniqueFacts(Sorted(muls));
    MultipliedSame(Unique(Sorted(muls)), muls);
  }

  predicate WrittenBefore(algo: seq<Expr>, k: nat, x: nat)
    requires k <= |algo|
  {
    exists j :: 0 <= j < k && algo[j].lhs == x
  }

  /** The products so far are those of the outputs written so far. */
  ghost predicate MulsSoFar(algo: seq<Expr>, k: nat, io: IoPtr, muls: seq<Expr>)
    requires k <= |algo|
  {
    forall x: nat {:trigger WrittenBefore(algo, k, x)} ::
      Multiplied(muls, x) <==> io.Out(x) && x > io.outBegin && WrittenBefore(algo, k, x)
  }

  lemma NoMuls(algo: seq<Expr>, io: IoPtr)
    ensures MulsSoFar(algo, 0, io, [])
  {
    forall x: nat ensures !Multiplied([], x) && !WrittenBefore(algo, 0, x) {
    }
  }

  lemma MulAdded(algo: seq<Expr>, k: nat, next: nat, io: IoPtr, perm: seq<int>, n: int, before: seq<Expr>, muls: seq<Expr>)
    requires k < |algo| && next == k + 1 && OutputPerm(io, perm, n) && OutputMuls(io, perm, n, before) && MulsSoFar(algo, k, io, before)
    requires var x := algo[k].lhs; muls == if io.Out(x) && x > io.outBegin then before + [OutputMul(io, perm, n, x)] else before
    ensures OutputMuls(io, perm, n, muls) && MulsSoFar(algo, next, io, muls)
  {
    forall x: nat {:trigger WrittenBefore(algo, next, x)}
      ensures Multiplied(muls, x) <==> io.Out(x) && x > io.outBegin && WrittenBefore(algo, next, x)
    {
      MulAddedAt(algo, k, next, io, perm, n, before, muls, x);
    }
  }

  lemma MulAddedAt(algo: seq<Expr>, k: nat, next: nat, io: IoPtr, perm: seq<int>, n: int, before: seq<Expr>, muls: seq<Expr>, x: nat)
    requires k < |algo| && next == k + 1 && OutputPerm(io, perm, n) && MulsSoFar(algo, k, io, before)
    requires var y := algo[k].lhs; muls == if io.Out(y) && y > io.outBegin then before + [OutputMul(io, perm, n, y)] else before
    ensures Multiplied(muls, x) <==> io.Out(x) && x > io.outBegin && WrittenBefore(algo, next, x)
  {
    var y := algo[k].lhs;
    WrittenStep(algo, k, next, x);
    if io.Out(y) && y > io.outBegin { MultipliedAppend(before, OutputMul(io, perm, n, y), x); }
    var written := WrittenBefore(algo, k, x);
  }

  lemma WrittenStep(algo: seq<Expr>, k: nat, next: nat, x: nat)
    requires k < |algo| && next == k + 1
    ensures WrittenBefore(algo, next, x) <==> WrittenBefore(algo, k, x) || x == algo[k].lhs
  {
    if x == algo[k].lhs { assert algo[k].lhs == x; }
  }

  // ----- isolate_writes

  predicate ReadsOutput(io: IoPtr, e: Expr) { (e.left.Ptr? && io.Out(e.left.id)) || (e.right.Ptr? && io.Out(e.right.id)) }

  /** A read of an output is redirected to a temporary. */
  function Redirect(io: IoPtr, a: Atom, n: Names): (Atom, Names) {
    if !(a.Ptr? && io.Out(a.id)) then (a, n)
    else if a.id in n.vars then (Ptr(n.vars[a.id]), n)
    else (Ptr(n.next + 1), Names(n.vars[a.id := n.next + 1], n.next + 1))
  }

  /** Keys are outputs and temporaries are not, so erasing under a temporary erases nothing. */
  ghost predicate OutputNames(io: IoPtr, unused: nat, n: Names) {
    unused <= n.next && forall x :: x in n.vars ==> io.Out(x) && n.vars[x] > unused
  }

  lemma RedirectNames(io: IoPtr, unused: nat, a: Atom, n: Names)
    requires OutputNames(io, unused, n)
    ensures OutputNames(io, unused, Redirect(io, a, n).1) && (n.vars != map[] ==> Redirect(io, a, n).1.vars != map[])
    ensures a.Ptr? && io.Out(a.id) ==> a.id in Redirect(io, a, n).1.vars
    ensures !(a.Ptr? && io.Out(a.id)) ==> Redirect(io, a, n) == (a, n)
  {
  }

  /** The pass erases its map under the name it has just put in place, so the map never shrinks
      and the pass gives up whenever the program reads an output. Otherwise it changes nothing.
   */
  method IsolateWrites(algo: seq<Expr>, io: IoPtr, unused: nat) returns (ok: bool, isolated: seq<Expr>)
    requires io.FreshFrom(unused)
    ensures ok <==> forall k :: 0 <= k < |algo| ==> !ReadsOutput(io, algo[k])
    ensures ok ==> isolated == algo
  {
    isolated := [];
    var n, k := Names(map[], unused), |algo|;
    while k > 0
      invariant 0 <= k <= |algo| && OutputNames(io, unused, n)
      invariant n.vars == map[] ==> isolated == algo[k..]
      invariant n.vars == map[] <==> forall j :: k <= j < |algo| ==> !ReadsOutput(io, algo[j])
    {
      k := k - 1;
      var e := algo[k];
      var after := [];
      if io.Out(e.lhs) && e.op.Binary? && e.lhs in n.vars {
        var temporary := n.vars[e.lhs];
        after := [Expr(e.lhs, Ptr(temporary), Copy, NoAtom)];
        e := e.(lhs := temporary);
        assert temporary !in n.vars;
        n := Names(n.vars - {e.lhs}, n.next);
      }
      var (left, n1) := Redirect(io, e.left, n);
      var (right, n2) := Redirect(io, e.right, n1);
      RedirectNames(io, unused, e.left, n);
      RedirectNames(io, unused, e.right, n1);
      assert algo[k..] == [algo[k]] + algo[k + 1..];
      isolated, n := [Expr(e.lhs, left, e.op, right)] + after + isolated, n2;
    }
    ok := n.vars == map[];
  }
}
