/** How the analysed statements run. Every read of an unassigned local stops the run with BadRead. */
module Execution {
  import opened Analysis

  datatype World<E> = World(mem: map<nat, int>, ext: E)

  /** Calls, fields and arithmetic; a None is an exception. A boolean is true when it is not zero. */
  datatype Env<!E> = Env(
    run: (nat, E) -> (Option<int>, E),
    op: (nat, int, int) -> Option<int>,
    fetch: (seq<int>, E) -> (Option<int>, E),
    store: (seq<int>, int, E) -> (Option<int>, E),
    items: (int, E) -> seq<int>,
    assertions: bool)

  datatype Res<T, E> = Val(x: T, w: World<E>) | Raised(w: World<E>) | Unassigned(v: nat)

  type Val<E> = Res<int, E>

  function Put<E>(w: World<E>, v: nat, x: int): World<E> { w.(mem := w.mem[v := x]) }

  function Drop<E>(w: World<E>, v: nat): World<E> { w.(mem := w.mem - {v}) }

  function Apply<E>(r: Option<int>, w: World<E>): Val<E> {
    match r
    case None => Raised(w)
    case Some(x) => Val(x, w)
  }

  /** Assigns the value an operation gave. */
  function Assigns<E>(v: nat, r: Option<int>, w: World<E>): Val<E> {
    match r
    case None => Raised(w)
    case Some(x) => Val(x, Put(w, v, x))
  }

  function Eval<E>(env: Env<E>, e: Expr, w: World<E>): Val<E> {
    match e
    case Opaque(id) => var r := env.run(id, w.ext); Apply(r.0, w.(ext := r.1))
    case Const(b) => Val(if b then 1 else 0, w)
    case Var(v) => if v in w.mem then Val(w.mem[v], w) else Unassigned(v)
    case Assign(v, rhs) =>
      (match Eval(env, rhs, w)
       case Val(x, w1) => Val(x, Put(w1, v, x))
       case o => o)
    case Update(v, op, rhs) =>
      if v !in w.mem then Unassigned(v)
      else (match Eval(env, rhs, w)
            case Val(x, w1) => Assigns(v, env.op(op, w.mem[v], x), w1)
            case o => o)
    case IncDec(v, op) => if v in w.mem then Assigns(v, env.op(op, w.mem[v], 1), w) else Unassigned(v)
    case Paren(x) => Eval(env, x, w)
    case Unary(op, x) =>
      (match Eval(env, x, w)
       case Val(a, w1) => Apply(env.op(op, a, 0), w1)
       case o => o)
    case Not(x) =>
      (match Eval(env, x, w)
       case Val(a, w1) => Val(if a == 0 then 1 else 0, w1)
       case o => o)
    case Binary(op, x, y) =>
      (match Eval(env, x, w)
       case Val(a, w1) =>
         (match Eval(env, y, w1)
          case Val(b, w2) => Apply(env.op(op, a, b), w2)
          case o => o)
       case o => o)
    case And(x, y) =>
      (match Eval(env, x, w)
       case Val(a, w1) => if a == 0 then Val(0, w1) else Eval(env, y, w1)
       case o => o)
    case Or(x, y) =>
      (match Eval(env, x, w)
       case Val(a, w1) => if a != 0 then Val(a, w1) else Eval(env, y, w1)
       case o => o)
    case Choose(cond, yes, no) =>
      (match Eval(env, cond, w)
       case Val(a, w1) => if a != 0 then Eval(env, yes, w1) else Eval(env, no, w1)
       case o => o)
    // Section 15.26 of the Java Language Specification: the place, what is in it if that is wanted, then the right side.
    case Store(place, rhs) =>
      (match EvalAll(env, place, w)
       case Val(at, w1) => (match Eval(env, rhs, w1) case Val(x, w2) => Stored(env, at, Some(x), w2) case o => o)
       case Raised(w1) => Raised(w1)
       case Unassigned(v) => Unassigned(v))
    case Modify(place, op, rhs) =>
      (match EvalAll(env, place, w)
       case Val(at, w1) =>
         (match Fetched(env, at, w1)
          case Val(was, w2) => (match Eval(env, rhs, w2) case Val(x, w3) => Stored(env, at, env.op(op, was, x), w3) case o => o)
          case o => o)
       case Raised(w1) => Raised(w1)
       case Unassigned(v) => Unassigned(v))
    case Step(place, op) =>
      (match EvalAll(env, place, w)
       case Val(at, w1) => (match Fetched(env, at, w1) case Val(was, w2) => Stored(env, at, env.op(op, was, 1), w2) case o => o)
       case Raised(w1) => Raised(w1)
       case Unassigned(v) => Unassigned(v))
  }

  function Fetched<E>(env: Env<E>, at: seq<int>, w: World<E>): Val<E> {
    var r := env.fetch(at, w.ext);
    Apply(r.0, w.(ext := r.1))
  }

  function Stored<E>(env: Env<E>, at: seq<int>, x: Option<int>, w: World<E>): Val<E> {
    match x
    case None => Raised(w)
    case Some(v) => var r := env.store(at, v, w.ext); Apply(r.0, w.(ext := r.1))
  }

  function EvalAll<E>(env: Env<E>, es: seq<Expr>, w: World<E>): Res<seq<int>, E> {
    if es == [] then Val([], w)
    else match Eval(env, es[0], w)
      case Val(x, w1) => (match EvalAll(env, es[1..], w1) case Val(xs, w2) => Val([x] + xs, w2) case o => o)
      case Raised(w1) => Raised(w1)
      case Unassigned(v) => Unassigned(v)
  }

  datatype Done<E> = Normal(w: World<E>) | Left(w: World<E>) | Threw(w: World<E>) | BadRead(v: nat) | OutOfFuel

  /** A statement that stops where its expression stops. */
  function Stops<T, E>(o: Res<T, E>): Done<E>
    requires !o.Val?
  {
    match o
    case Raised(w) => Threw(w)
    case Unassigned(v) => BadRead(v)
  }

  function EvalTest<E>(env: Env<E>, test: Option<Expr>, w: World<E>): Val<E> {
    match test
    case None => Val(1, w)
    case Some(x) => Eval(env, x, w)
  }

  function ExecAll<E>(env: Env<E>, ss: seq<Stmt>, w: World<E>, fuel: nat): Done<E>
    decreases fuel, ss, 0
  {
    if ss == [] then Normal(w)
    else
      var d := Exec(env, ss[0], w, fuel);
      if d.Normal? then ExecAll(env, ss[1..], d.w, fuel) else d
  }

  /** A loop tests, runs its body, then its post part. */
  function Loop<E>(env: Env<E>, test: Option<Expr>, post: seq<Expr>, body: Stmt, w: World<E>, fuel: nat): Done<E>
    decreases fuel, body, 1
  {
    if fuel == 0 then OutOfFuel
    else
      var t := EvalTest(env, test, w);
      if !t.Val? then Stops(t)
      else if t.x == 0 then Normal(t.w)
      else
        var d := Exec(env, body, t.w, fuel - 1);
        if !d.Normal? then d
        else
          var p := EvalAll(env, post, d.w);
          if p.Val? then Loop(env, test, post, body, p.w, fuel - 1) else Stops(p)
  }

  function Each<E>(env: Env<E>, v: nat, items: seq<int>, body: Stmt, w: World<E>, fuel: nat): Done<E>
    decreases fuel, body, 1
  {
    if items == [] then Normal(w)
    else if fuel == 0 then OutOfFuel
    else
      var d := Exec(env, body, Put(w, v, items[0]), fuel - 1);
      if d.Normal? then Each(env, v, items[1..], body, d.w, fuel - 1) else d
  }

  function Exec<E>(env: Env<E>, s: Stmt, w: World<E>, fuel: nat): Done<E>
    decreases fuel, s, 0
  {
    match s
    case Empty => Normal(w)
    case Do1(x) => var o := Eval(env, x, w); if o.Val? then Normal(o.w) else Stops(o)
    case Local(v, None) => Normal(Drop(w, v))
    case Local(v, Some(x)) => var o := Eval(env, x, w); if o.Val? then Normal(Put(o.w, v, o.x)) else Stops(o)
    case Block(ss) => ExecAll(env, ss, w, fuel)
    case Labeled(body) => Exec(env, body, w, fuel)
    case If(cond, yes, no) =>
      var o := Eval(env, cond, w);
      if !o.Val? then Stops(o)
      else if o.x != 0 then Exec(env, yes, o.w, fuel)
      else (match no case None => Normal(o.w) case Some(els) => Exec(env, els, o.w, fuel))
    case While(cond, body) => Loop(env, Some(cond), [], body, w, fuel)
    case DoWhile(body, cond) =>
      var d := Exec(env, body, w, fuel);
      if d.Normal? then Loop(env, Some(cond), [], body, d.w, fuel) else d
    case For(first, test, post, body) =>
      var d := ExecAll(env, first, w, fuel);
      if d.Normal? then Loop(env, test, post, body, d.w, fuel) else d
    case ForEach(v, x, body) =>
      var o := Eval(env, x, w);
      if o.Val? then Each(env, v, env.items(o.x, o.w.ext), body, o.w, fuel) else Stops(o)
    case Return(None) => Left(w)
    case Return(Some(x)) => var o := Eval(env, x, w); if o.Val? then Left(o.w) else Stops(o)
    case Throw(x) => var o := Eval(env, x, w); if o.Val? then Threw(o.w) else Stops(o)
    case Assert(cond, message) =>
      if !env.assertions then Normal(w)
      else
        var o := Eval(env, cond, w);
        if !o.Val? then Stops(o)
        else if o.x != 0 then Normal(o.w)
        else (match message
              case None => Threw(o.w)
              case Some(m) => var q := Eval(env, m, o.w); if q.Val? then Threw(q.w) else Stops(q))
    case Sync(x, ss) => var o := Eval(env, x, w); if o.Val? then ExecAll(env, ss, o.w, fuel) else Stops(o)
  }
}
