/**
 Building the history of every index computed in the body of a with-loop (WLI): an assignment of a
 straight-line SSA body gets an index_info if its right-hand side transforms an index of the loop.
 */
module WithloopInfo {
  import opened Wrappers
  import opened Generators
  import opened AxisTransform
  import opened IndexInfos

  // ---- bodies and what they compute ----

  datatype Arg = Const(c: int) | Id(x: nat)

  /** Lit is a constant, Sel the selection of an element, Other anything WLI does not look at. */
  datatype Expr =
    | Lit(c: int)
    | Arith(op: Prf, left: Arg, right: Arg)
    | Array(elems: seq<Arg>)
    | Copy(x: nat, shapeKnown: bool)
    | Sel(arr: nat, index: nat, shapeKnown: bool, foldable: bool)
    | Other

  datatype Assign = Assign(x: nat, rhs: Expr)

  /** The index vector of the loop and its index scalars. */
  datatype WithId = WithId(vec: nat, scalars: seq<nat>)

  datatype Value = Num(n: int) | Vec(s: seq<int>)

  type Env = map<nat, Value>

  /** The elements of all arrays, by array and index. */
  type Arrays = (nat, Value) -> Value

  function Get(env: Env, x: nat): Option<Value> {
    if x in env then Some(env[x]) else None
  }

  function ArgValue(env: Env, a: Arg): Option<int> {
    match a
    case Const(c) => Some(c)
    case Id(x) => if x in env && env[x].Num? then Some(env[x].n) else None
  }

  function Operate(op: Prf, x: int, y: int): Option<int> {
    match op
    case Add => Some(x + y)
    case Sub => Some(x - y)
    case Mul => Some(x * y)
    case Div => if y == 0 then None else Some(TruncDiv(x, y))
  }

  /** An operation with a constant; argNo says which argument the constant is. */
  function OperateWith(op: Prf, argNo: nat, c: int, x: int): Option<int> {
    if argNo == 2 then Operate(op, x, c) else Operate(op, c, x)
  }

  /** The value of a right-hand side, if it has one. */
  function ExprValue(arrays: Arrays, env: Env, e: Expr): Option<Value> {
    match e
    case Lit(c) => Some(Num(c))
    case Arith(op, left, right) =>
      var x, y := ArgValue(env, left), ArgValue(env, right);
      if x.None? || y.None? then None else
        var r := Operate(op, x.value, y.value);
        if r.None? then None else Some(Num(r.value))
    case Array(elems) =>
      if forall i :: 0 <= i < |elems| ==> ArgValue(env, elems[i]).Some? then
        Some(Vec(seq(|elems|, i requires 0 <= i < |elems| => ArgValue(env, elems[i]).value)))
      else None
    case Copy(x, _) => Get(env, x)
    case Sel(a, x, _, _) => ElementAt(arrays, a, Get(env, x))
    case Other => None
  }

  function ElementAt(arrays: Arrays, a: nat, index: Option<Value>): Option<Value> {
    if index.Some? then Some(arrays(a, index.value)) else None
  }

  /** The index variables at index vector iv. */
  function Entry(w: WithId, iv: seq<int>): (env: Env)
    requires |iv| == |w.scalars|
  {
    (map x | x in w.scalars :: Num(iv[LocatedScalar(w.scalars, x, 0) - 1]))[w.vec := Vec(iv)]
  }

  function Bound(env: Env, x: nat, v: Option<Value>): Env {
    if v.Some? then env[x := v.value] else env
  }

  /** The values after the first k assignments; what is not computed is left out. */
  function Run(body: seq<Assign>, w: WithId, arrays: Arrays, iv: seq<int>, k: nat): Env
    requires k <= |body| && |iv| == |w.scalars|
  {
    if k == 0 then Entry(w, iv) else
      var env, a := Run(body, w, arrays, iv, k - 1), body[k - 1];
      Bound(env, a.x, ExprValue(arrays, env, a.rhs))
  }

  predicate IsIndexName(w: WithId, x: nat) {
    x == w.vec || x in w.scalars
  }

  /** Single assignment. */
  predicate Ssa(body: seq<Assign>, w: WithId) {
    && |w.scalars| > 0
    && (forall k :: 0 <= k < |body| ==> !IsIndexName(w, body[k].x))
    && (forall j, k :: 0 <= j < k < |body| ==> body[j].x != body[k].x)
  }

  /** Which variables are vectors, and which arrays have vectors for elements. */
  datatype Types = Types(vectors: set<nat>, cells: set<nat>)

  predicate ScalarArg(ty: Types, a: Arg) {
    a.Id? ==> a.x !in ty.vectors
  }

  /** A right-hand side is well typed, and of the type of its left-hand side; no vector is empty. */
  predicate TypedAssign(ty: Types, a: Assign) {
    match a.rhs
    case Lit(_) => a.x !in ty.vectors
    case Arith(_, left, right) => a.x !in ty.vectors && ScalarArg(ty, left) && ScalarArg(ty, right)
    case Array(elems) => a.x in ty.vectors && elems != [] && forall i :: 0 <= i < |elems| ==> ScalarArg(ty, elems[i])
    case Copy(x, _) => a.x in ty.vectors <==> x in ty.vectors
    case Sel(arr, x, _, _) => x in ty.vectors && (a.x in ty.vectors <==> arr in ty.cells)
    case Other => true
  }

  predicate Typed(body: seq<Assign>, w: WithId, ty: Types) {
    && w.vec in ty.vectors && (forall i :: 0 <= i < |w.scalars| ==> w.scalars[i] !in ty.vectors)
    && forall k :: 0 <= k < |body| ==> TypedAssign(ty, body[k])
  }

  ghost predicate Respects(arrays: Arrays, ty: Types) {
    forall a, v :: arrays(a, v).Vec? <==> a in ty.cells
  }

  // ---- what WLI attaches ----

  /** -1 for the index vector, i for the i-th index scalar, 0 otherwise. */
  function Located(w: WithId, x: nat): (r: int)
    ensures -1 <= r <= |w.scalars|
    ensures r > 0 ==> w.scalars[r - 1] == x
  {
    if x == w.vec then -1 else LocatedScalar(w.scalars, x, 0)
  }

  function LocatedScalar(scalars: seq<nat>, x: nat, i: nat): (r: nat)
    requires i <= |scalars|
    ensures r <= |scalars| && (r > 0 ==> r > i && scalars[r - 1] == x)
    ensures r == 0 <==> x !in scalars[i..]
    decreases |scalars| - i
  {
    if i == |scalars| then 0 else if scalars[i] == x then i + 1 else LocatedScalar(scalars, x, i + 1)
  }

  /** The histories attached so far, by the variable assigned to, and the variables assigned constants. */
  datatype Known = Known(index: map<nat, IndexInfo>, lits: map<nat, int>)

  function ConstantOf(kn: Known, a: Arg): Option<int> {
    match a
    case Const(c) => Some(c)
    case Id(x) => if x in kn.lits then Some(kn.lits[x]) else None
  }

  function ScalarInfo(permutation: nat, last: Option<IndexInfo>, op: Prf, c: int, argNo: nat): IndexInfo {
    IndexInfo(0, [permutation], [last], op, [c], argNo)
  }

  /** The base of the first component, also of a vector. */
  function FirstBase(info: IndexInfo): nat {
    if |info.permutation| > 0 then info.permutation[0] else 0
  }

  /** An operation on variable x and a constant: the history of x goes on, whatever it is the history of.  The
      operation takes scalars, so x is not the index vector. */
  function InfoSxS(kn: Known, w: WithId, op: Prf, x: nat, c: int, argNo: nat): Option<IndexInfo> {
    if x in kn.index then Some(ScalarInfo(FirstBase(kn.index[x]), Some(kn.index[x]), op, c, argNo))
    else if Located(w, x) > 0 then Some(ScalarInfo(Located(w, x), None, op, c, argNo))
    else None
  }

  /** One element of a vector: its base and its scalar history, or a constant. */
  datatype Element = Element(permutation: nat, last: Option<IndexInfo>, constArg: int)

  function ElementOf(kn: Known, w: WithId, a: Arg): Option<Element> {
    if a.Id? && a.x in kn.index && kn.index[a.x].vector == 0 then
      Some(Element(FirstBase(kn.index[a.x]), Some(kn.index[a.x]), 0))
    else if a.Id? && Located(w, a.x) > 0 then Some(Element(Located(w, a.x), None, 0))
    else if ConstantOf(kn, a).Some? then Some(Element(0, None, ConstantOf(kn, a).value))
    else None
  }

  function Elements(kn: Known, w: WithId, elems: seq<Arg>): (r: Option<seq<Element>>)
    ensures r.Some? ==>
      |r.value| == |elems| && forall i :: 0 <= i < |elems| ==> ElementOf(kn, w, elems[i]) == Some(r.value[i])
    ensures r.None? ==> exists i :: 0 <= i < |elems| && ElementOf(kn, w, elems[i]).None?
  {
    if forall i :: 0 <= i < |elems| ==> ElementOf(kn, w, elems[i]).Some? then
      Some(seq(|elems|, i requires 0 <= i < |elems| => ElementOf(kn, w, elems[i]).value))
    else None
  }

  function ArrayInfo(es: seq<Element>): IndexInfo {
    var n := |es|;
    IndexInfo(n, seq(n, i requires 0 <= i < n => es[i].permutation), seq(n, i requires 0 <= i < n => es[i].last),
              Add, seq(n, i requires 0 <= i < n => es[i].constArg), 0)
  }

  function VecInfo(n: nat): IndexInfo {
    IndexInfo(n, seq(n, i requires 0 <= i < n => i + 1), seq(n, _ => None), Add, seq(n, _ => 0), 0)
  }

  function InfoId(kn: Known, w: WithId, x: nat): Option<IndexInfo> {
    var v := Located(w, x);
    if v < 0 then Some(VecInfo(|w.scalars|))
    else if v > 0 then Some(ScalarInfo(v, None, Add, 0, 0))
    else if x in kn.index then Some(kn.index[x])
    else None
  }

  /** The constant second argument is looked for first. */
  predicate ConstSecond(kn: Known, left: Arg, right: Arg) {
    left.Id? && ConstantOf(kn, right).Some?
  }

  predicate ConstFirst(kn: Known, left: Arg, right: Arg) {
    !ConstSecond(kn, left, right) && right.Id? && ConstantOf(kn, left).Some?
  }

  function InfoOf(kn: Known, w: WithId, e: Expr): Option<IndexInfo> {
    match e
    case Arith(op, left, right) =>
      if ConstSecond(kn, left, right) then InfoSxS(kn, w, op, left.x, ConstantOf(kn, right).value, 2)
      else if ConstFirst(kn, left, right) then InfoSxS(kn, w, op, right.x, ConstantOf(kn, left).value, 1)
      else None
    case Array(elems) =>
      var es := Elements(kn, w, elems);
      if es.Some? then Some(ArrayInfo(es.value)) else None
    case Copy(x, shapeKnown) => if shapeKnown then InfoId(kn, w, x) else None
    case Sel(_, x, shapeKnown, foldable) => if shapeKnown && foldable then InfoId(kn, w, x) else None
    case Lit(_) => None
    case Other => None
  }

  function Learn(kn: Known, w: WithId, a: Assign): Known {
    var info := InfoOf(kn, w, a.rhs);
    Known(if info.Some? then kn.index[a.x := info.value] else kn.index,
          if a.rhs.Lit? then kn.lits[a.x := a.rhs.c] else kn.lits)
  }

  /** What is attached after the first k assignments. */
  function Infer(body: seq<Assign>, w: WithId, k: nat): Known
    requires k <= |body|
  {
    if k == 0 then Known(map[], map[]) else Learn(Infer(body, w, k - 1), w, body[k - 1])
  }

  // ---- what a history says ----

  /** A scalar history over n index scalars, as LinearTransformationsScalar takes it: it goes on in scalar ones
      only, and the base is the same all along. */
  predicate ScalarShaped(info: IndexInfo, n: nat)
    decreases info
  {
    && ScalarHistory(info) && |info.permutation| == |info.constArg| == 1 && info.argNo <= 2
    && 1 <= info.permutation[0] <= n
    && (info.last[0].Some? ==>
         ScalarShaped(info.last[0].value, n) && info.last[0].value.permutation == info.permutation)
  }

  predicate VectorShaped(info: IndexInfo, n: nat) {
    && 0 < info.vector == |info.permutation| == |info.last| == |info.constArg| && info.argNo == 0
    && forall d :: 0 <= d < info.vector ==>
         && info.permutation[d] <= n
         && (info.last[d].Some? ==>
              && info.permutation[d] > 0
              && ScalarShaped(info.last[d].value, n) && info.last[d].value.permutation == [info.permutation[d]])
  }

  predicate Shaped(info: IndexInfo, n: nat) {
    if info.vector == 0 then ScalarShaped(info, n) else VectorShaped(info, n)
  }

  /** The value a scalar history gives when its index scalar is x; none if it divides by zero. */
  function ScalarValue(info: IndexInfo, n: nat, x: int): Option<int>
    requires ScalarShaped(info, n)
    decreases info
  {
    var y := if info.last[0].Some? then ScalarValue(info.last[0].value, n, x) else Some(x);
    if y.None? || info.argNo == 0 then y else OperateWith(info.mprf, info.argNo, info.constArg[0], y.value)
  }

  function ComponentValue(info: IndexInfo, iv: seq<int>, d: nat): Option<int>
    requires VectorShaped(info, |iv|) && d < info.vector
  {
    if info.permutation[d] == 0 then Some(info.constArg[d])
    else if info.last[d].None? then Some(iv[info.permutation[d] - 1])
    else ScalarValue(info.last[d].value, |iv|, iv[info.permutation[d] - 1])
  }

  /** The value a history gives at index vector iv. */
  function HistoryValue(info: IndexInfo, iv: seq<int>): (r: Option<Value>)
    requires Shaped(info, |iv|)
    ensures r.Some? ==> (r.value.Vec? <==> info.vector > 0)
  {
    if info.vector == 0 then
      var v := ScalarValue(info, |iv|, iv[info.permutation[0] - 1]);
      if v.Some? then Some(Num(v.value)) else None
    else if forall d :: 0 <= d < info.vector ==> ComponentValue(info, iv, d).Some? then
      Some(Vec(seq(info.vector, d requires 0 <= d < info.vector => ComponentValue(info, iv, d).value)))
    else None
  }

  // ---- soundness ----

  datatype Selection = Selection(arr: nat, index: nat)

  /** The variables assigned a selected element, and where it comes from. */
  function Selections(body: seq<Assign>, k: nat): map<nat, Selection>
    requires k <= |body|
  {
    if k == 0 then map[] else Selected(Selections(body, k - 1), body[k - 1])
  }

  function Selected(sels: map<nat, Selection>, a: Assign): map<nat, Selection> {
    if a.rhs.Sel? then sels[a.x := Selection(a.rhs.arr, a.rhs.index)] else sels
  }

  /** What the history of x is about: x itself, or the index if x is a selected element. */
  function Subject(sels: map<nat, Selection>, env: Env, x: nat): Option<Value> {
    Get(env, if x in sels then sels[x].index else x)
  }

  /** Every history has the shape LinearTransformations takes, and gives the value of what it is about. */
  ghost predicate Sound(kn: Known, sels: map<nat, Selection>, env: Env, iv: seq<int>) {
    forall x :: x in kn.index ==>
      Shaped(kn.index[x], |iv|) && Subject(sels, env, x) == HistoryValue(kn.index[x], iv)
  }

  /** The variable whose history goes on in the new one; the elements of a vector are left out: only scalar
      histories go on there, and a selected element never has one. */
  function Continued(kn: Known, w: WithId, e: Expr): Option<nat> {
    match e
    case Arith(_, left, right) =>
      if ConstSecond(kn, left, right) then Some(left.x)
      else if ConstFirst(kn, left, right) then Some(right.x)
      else None
    case Copy(x, shapeKnown) => if shapeKnown && Located(w, x) == 0 then Some(x) else None
    case Sel(_, x, shapeKnown, foldable) => if shapeKnown && foldable && Located(w, x) == 0 then Some(x) else None
    case _ => None
  }

  /** The new history does not go on from that of a selected element. */
  predicate CleanStep(kn: Known, sels: map<nat, Selection>, w: WithId, e: Expr) {
    var x := Continued(kn, w, e);
    x.Some? && x.value in kn.index ==> x.value !in sels
  }

  ghost predicate CleanTo(body: seq<Assign>, w: WithId, k: nat)
    requires k <= |body|
  {
    forall j :: 0 <= j < k ==> CleanAt(body, w, j)
  }

  predicate CleanAt(body: seq<Assign>, w: WithId, j: nat)
    requires j < |body|
  {
    CleanStep(Infer(body, w, j), Selections(body, j), w, body[j].rhs)
  }

  /** What the soundness of the histories rests on. */
  ghost predicate Grounded(kn: Known, sels: map<nat, Selection>, w: WithId, arrays: Arrays, env: Env, iv: seq<int>) {
    && (forall x :: x in kn.lits ==> Get(env, x) == Some(Num(kn.lits[x])))
    && (forall x :: 0 < Located(w, x) <= |iv| ==> Get(env, x) == Some(Num(iv[Located(w, x) - 1])))
    && Get(env, w.vec) == Some(Vec(iv))
    && (forall x :: x in sels && x in kn.index ==>
          && (IsIndexName(w, sels[x].index) || sels[x].index in kn.index)
          && Get(env, x) == ElementAt(arrays, sels[x].arr, Get(env, sels[x].index)))
  }

  /** The history of a vector is one of a vector; that of a selected element is always one of a vector. */
  predicate TypedAll(kn: Known, sels: map<nat, Selection>, ty: Types) {
    && (forall x :: x in kn.index ==> (kn.index[x].vector > 0 <==> x in sels || x in ty.vectors))
    && (forall x :: x in sels ==> (x in ty.vectors <==> sels[x].arr in ty.cells))
  }

  predicate Fresh(kn: Known, sels: map<nat, Selection>, w: WithId, env: Env, x: nat) {
    x !in kn.index && x !in kn.lits && x !in sels && x !in env && !IsIndexName(w, x)
  }

  lemma LocatedName(w: WithId, x: nat)
    ensures Located(w, x) != 0 <==> IsIndexName(w, x)
    ensures Located(w, x) < 0 <==> x == w.vec
  {
    assert w.scalars[0..] == w.scalars;
  }

  /** The history of one operation gives the operation applied to the value of x. */
  lemma OneStep(kn: Known, sels: map<nat, Selection>, w: WithId, op: Prf, x: nat, c: int, argNo: nat, arrays: Arrays,
                env: Env, iv: seq<int>)
    requires Sound(kn, sels, env, iv) && Grounded(kn, sels, w, arrays, env, iv) && |iv| == |w.scalars|
    requires 1 <= argNo <= 2 && InfoSxS(kn, w, op, x, c, argNo).Some?
    requires x in kn.index ==> x !in sels && kn.index[x].vector == 0
    ensures var info := InfoSxS(kn, w, op, x, c, argNo).value;
            && Shaped(info, |iv|)
            && var y := ArgValue(env, Id(x));
            && HistoryValue(info, iv) == if y.None? then None else
                 var r := OperateWith(op, argNo, c, y.value);
                 if r.None? then None else Some(Num(r.value))
  {
    hide Sound, Grounded, Operate, OperateWith, Located;
    if x in kn.index {
      ElementLocal(kn, sels, w, x, env, iv);
    } else {
      ScalarGiven(kn, sels, w, arrays, env, iv, x);
    }
  }

  lemma ScalarGiven(kn: Known, sels: map<nat, Selection>, w: WithId, arrays: Arrays, env: Env, iv: seq<int>, x: nat)
    requires Grounded(kn, sels, w, arrays, env, iv) && |iv| == |w.scalars| && Located(w, x) > 0
    ensures ArgValue(env, Id(x)) == Some(iv[Located(w, x) - 1])
  {
  }

  lemma ArithDescribes(kn: Known, sels: map<nat, Selection>, w: WithId, e: Expr, arrays: Arrays, env: Env, iv: seq<int>)
    requires Sound(kn, sels, env, iv) && Grounded(kn, sels, w, arrays, env, iv) && |iv| == |w.scalars|
    requires e.Arith? && InfoOf(kn, w, e).Some?
    requires forall x :: Continued(kn, w, e) == Some(x) && x in kn.index ==> x !in sels && kn.index[x].vector == 0
    ensures Shaped(InfoOf(kn, w, e).value, |iv|)
    ensures HistoryValue(InfoOf(kn, w, e).value, iv) == ExprValue(arrays, env, e)
  {
    var x := Continued(kn, w, e).value;
    if ConstSecond(kn, e.left, e.right) {
      assert ArgValue(env, e.right) == ConstantOf(kn, e.right);
      OneStep(kn, sels, w, e.op, x, ConstantOf(kn, e.right).value, 2, arrays, env, iv);
    } else {
      assert ArgValue(env, e.left) == ConstantOf(kn, e.left);
      OneStep(kn, sels, w, e.op, x, ConstantOf(kn, e.left).value, 1, arrays, env, iv);
    }
  }

  /** The history of a vector of constants, index scalars and transformed ones gives that vector. */
  lemma ArrayDescribes(kn: Known, sels: map<nat, Selection>, w: WithId, elems: seq<Arg>, es: seq<Element>,
                       arrays: Arrays, env: Env, iv: seq<int>)
    requires Sound(kn, sels, env, iv) && Grounded(kn, sels, w, arrays, env, iv) && |iv| == |w.scalars|
    requires Elements(kn, w, elems) == Some(es) && elems != []
    requires forall x :: x in kn.index && kn.index[x].vector == 0 ==> x !in sels
    ensures Shaped(ArrayInfo(es), |iv|)
    ensures HistoryValue(ArrayInfo(es), iv) == ExprValue(arrays, env, Array(elems))
  {
    var info := ArrayInfo(es);
    forall d | 0 <= d < |es|
      ensures info.permutation[d] <= |iv|
      ensures info.last[d].Some? ==>
        && info.permutation[d] > 0
        && ScalarShaped(info.last[d].value, |iv|) && info.last[d].value.permutation == [info.permutation[d]]
    {
      ElementDescribes(kn, sels, w, elems[d], es[d], arrays, env, iv);
    }
    forall d | 0 <= d < |es| ensures ComponentValue(info, iv, d) == ArgValue(env, elems[d]) {
      ElementDescribes(kn, sels, w, elems[d], es[d], arrays, env, iv);
    }
    VectorValue(info, env, elems, arrays, iv);
  }

  lemma VectorValue(info: IndexInfo, env: Env, elems: seq<Arg>, arrays: Arrays, iv: seq<int>)
    requires VectorShaped(info, |iv|) && |elems| == info.vector
    requires forall d :: 0 <= d < |elems| ==> ComponentValue(info, iv, d) == ArgValue(env, elems[d])
    ensures HistoryValue(info, iv) == ExprValue(arrays, env, Array(elems))
  {
    var h, e := HistoryValue(info, iv), ExprValue(arrays, env, Array(elems));
    if forall d :: 0 <= d < |elems| ==> ArgValue(env, elems[d]).Some? {
      assert h.value.s == e.value.s;
    } else {
      var d :| 0 <= d < |elems| && ArgValue(env, elems[d]).None?;
      assert ComponentValue(info, iv, d).None?;
    }
  }

  lemma SoundOf(kn: Known, sels: map<nat, Selection>, env: Env, iv: seq<int>, x: nat)
    requires Sound(kn, sels, env, iv) && x in kn.index && x !in sels
    ensures Shaped(kn.index[x], |iv|) && Get(env, x) == HistoryValue(kn.index[x], iv)
  {
  }

  lemma ElementDescribes(kn: Known, sels: map<nat, Selection>, w: WithId, a: Arg, e: Element,
                         arrays: Arrays, env: Env, iv: seq<int>)
    requires Sound(kn, sels, env, iv) && Grounded(kn, sels, w, arrays, env, iv) && |iv| == |w.scalars|
    requires ElementOf(kn, w, a) == Some(e)
    requires forall x :: x in kn.index && kn.index[x].vector == 0 ==> x !in sels
    ensures e.permutation <= |iv|
    ensures e.last.Some? ==>
      e.permutation > 0 && ScalarShaped(e.last.value, |iv|) && e.last.value.permutation == [e.permutation]
    ensures ArgValue(env, a) ==
      if e.permutation == 0 then Some(e.constArg)
      else if e.last.None? then Some(iv[e.permutation - 1])
      else ScalarValue(e.last.value, |iv|, iv[e.permutation - 1])
  {
    hide *;
    if a.Id? && a.x in kn.index && kn.index[a.x].vector == 0 {
      ElementLocal(kn, sels, w, a.x, env, iv);
    } else {
      ElementBase(kn, sels, w, a, arrays, env, iv);
    }
  }

  lemma ElementLocal(kn: Known, sels: map<nat, Selection>, w: WithId, x: nat, env: Env, iv: seq<int>)
    requires Sound(kn, sels, env, iv) && x in kn.index && x !in sels && kn.index[x].vector == 0
    ensures var info := kn.index[x];
            && ScalarShaped(info, |iv|) && info.permutation == [FirstBase(info)] && 0 < FirstBase(info) <= |iv|
            && ArgValue(env, Id(x)) == ScalarValue(info, |iv|, iv[FirstBase(info) - 1])
            && ElementOf(kn, w, Id(x)) == Some(Element(FirstBase(info), Some(info), 0))
  {
    hide Sound, Operate, OperateWith, Located;
    SoundOf(kn, sels, env, iv, x);
  }

  lemma ElementBase(kn: Known, sels: map<nat, Selection>, w: WithId, a: Arg, arrays: Arrays, env: Env, iv: seq<int>)
    requires Grounded(kn, sels, w, arrays, env, iv) && |iv| == |w.scalars| && ElementOf(kn, w, a).Some?
    requires !(a.Id? && a.x in kn.index && kn.index[a.x].vector == 0)
    ensures var e := ElementOf(kn, w, a).value;
            && e.permutation <= |iv| && e.last.None?
            && ArgValue(env, a) == Some(if e.permutation == 0 then e.constArg else iv[e.permutation - 1])
  {
  }

  lemma IdDescribes(kn: Known, sels: map<nat, Selection>, w: WithId, x: nat, arrays: Arrays, env: Env, iv: seq<int>)
    requires Sound(kn, sels, env, iv) && Grounded(kn, sels, w, arrays, env, iv) && |iv| == |w.scalars| > 0
    requires InfoId(kn, w, x).Some? && (Located(w, x) == 0 && x in kn.index ==> x !in sels)
    ensures Shaped(InfoId(kn, w, x).value, |iv|)
    ensures HistoryValue(InfoId(kn, w, x).value, iv) == Get(env, x)
  {
    LocatedName(w, x);
    var info := InfoId(kn, w, x).value;
    if Located(w, x) < 0 {
      assert forall d :: 0 <= d < |iv| ==> ComponentValue(info, iv, d) == Some(iv[d]);
      assert HistoryValue(info, iv).value.s == iv;
    }
  }

  /** What is attached to a right-hand side gives its value, or that of its index. */
  lemma StepDescribes(kn: Known, sels: map<nat, Selection>, w: WithId, ty: Types, a: Assign, arrays: Arrays, env: Env,
                      iv: seq<int>)
    requires Sound(kn, sels, env, iv) && Grounded(kn, sels, w, arrays, env, iv) && |iv| == |w.scalars| > 0
    requires TypedAssign(ty, a) && TypedAll(kn, sels, ty) && CleanStep(kn, sels, w, a.rhs) && InfoOf(kn, w, a.rhs).Some?
    ensures var info := InfoOf(kn, w, a.rhs).value;
            && Shaped(info, |iv|)
            && HistoryValue(info, iv) == if a.rhs.Sel? then Get(env, a.rhs.index) else ExprValue(arrays, env, a.rhs)
  {
    match a.rhs {
      case Arith(_, _, _) => ArithDescribes(kn, sels, w, a.rhs, arrays, env, iv);
      case Array(elems) => ArrayDescribes(kn, sels, w, elems, Elements(kn, w, elems).value, arrays, env, iv);
      case Copy(x, _) => IdDescribes(kn, sels, w, x, arrays, env, iv);
      case Sel(_, x, _, _) => IdDescribes(kn, sels, w, x, arrays, env, iv);
      case _ =>
    }
  }

  lemma StepSound(kn: Known, sels: map<nat, Selection>, w: WithId, ty: Types, a: Assign, arrays: Arrays, env: Env,
                  iv: seq<int>)
    requires Sound(kn, sels, env, iv) && Grounded(kn, sels, w, arrays, env, iv) && |iv| == |w.scalars| > 0
    requires TypedAssign(ty, a) && TypedAll(kn, sels, ty) && CleanStep(kn, sels, w, a.rhs)
    requires Fresh(kn, sels, w, env, a.x)
    ensures Sound(Learn(kn, w, a), Selected(sels, a), Bound(env, a.x, ExprValue(arrays, env, a.rhs)), iv)
  {
    var kn', sels', env' := Learn(kn, w, a), Selected(sels, a), Bound(env, a.x, ExprValue(arrays, env, a.rhs));
    LocatedName(w, if a.rhs.Sel? then a.rhs.index else 0);
    if InfoOf(kn, w, a.rhs).Some? {
      StepDescribes(kn, sels, w, ty, a, arrays, env, iv);
    }
    hide ExprValue, Shaped, HistoryValue, InfoOf, TypedAssign, TypedAll, CleanStep, Grounded;
    assert kn'.index == if InfoOf(kn, w, a.rhs).Some? then kn.index[a.x := InfoOf(kn, w, a.rhs).value] else kn.index;
    forall x | x in kn'.index
      ensures Shaped(kn'.index[x], |iv|) && Subject(sels', env', x) == HistoryValue(kn'.index[x], iv)
    {
      if x == a.x {
        if a.rhs.Sel? {
          SelRooted(kn, w, a.rhs);
        }
      } else {
        SameSubject(kn, sels, w, a, arrays, env, iv, x);
      }
    }
  }

  /** A new assignment does not change what earlier histories are about. */
  lemma SameSubject(kn: Known, sels: map<nat, Selection>, w: WithId, a: Assign, arrays: Arrays, env: Env, iv: seq<int>,
                    x: nat)
    requires Sound(kn, sels, env, iv) && Grounded(kn, sels, w, arrays, env, iv) && Fresh(kn, sels, w, env, a.x)
    requires x in kn.index
    ensures Shaped(kn.index[x], |iv|) && x != a.x
    ensures Subject(Selected(sels, a), Bound(env, a.x, ExprValue(arrays, env, a.rhs)), x) ==
      HistoryValue(kn.index[x], iv)
  {
    hide ExprValue, Shaped, HistoryValue;
  }

  lemma SelRooted(kn: Known, w: WithId, e: Expr)
    requires e.Sel? && InfoOf(kn, w, e).Some?
    ensures IsIndexName(w, e.index) || e.index in kn.index
  {
    LocatedName(w, e.index);
  }

  /** Selected elements stay what they were, and a new one is the element at its index. */
  lemma ElementsGrounded(kn: Known, sels: map<nat, Selection>, w: WithId, a: Assign, arrays: Arrays, env: Env,
                         iv: seq<int>)
    requires Grounded(kn, sels, w, arrays, env, iv) && Fresh(kn, sels, w, env, a.x)
    requires a.rhs.Sel? && InfoOf(kn, w, a.rhs).Some? ==> IsIndexName(w, a.rhs.index) || a.rhs.index in kn.index
    ensures var kn', sels', env' := Learn(kn, w, a), Selected(sels, a), Bound(env, a.x, ExprValue(arrays, env, a.rhs));
            forall x :: x in sels' && x in kn'.index ==>
              && (IsIndexName(w, sels'[x].index) || sels'[x].index in kn'.index)
              && Get(env', x) == ElementAt(arrays, sels'[x].arr, Get(env', sels'[x].index))
  {
    hide InfoOf, Located, IsIndexName;
  }

  lemma StepGrounded(kn: Known, sels: map<nat, Selection>, w: WithId, a: Assign, arrays: Arrays, env: Env, iv: seq<int>)
    requires Grounded(kn, sels, w, arrays, env, iv) && Fresh(kn, sels, w, env, a.x) && |iv| == |w.scalars|
    ensures Grounded(Learn(kn, w, a), Selected(sels, a), w, arrays, Bound(env, a.x, ExprValue(arrays, env, a.rhs)), iv)
  {
    hide InfoOf, Located, ElementAt;
    if a.rhs.Sel? && InfoOf(kn, w, a.rhs).Some? {
      SelRooted(kn, w, a.rhs);
    }
    ElementsGrounded(kn, sels, w, a, arrays, env, iv);
    forall x | 0 < Located(w, x) <= |iv|
      ensures Get(Bound(env, a.x, ExprValue(arrays, env, a.rhs)), x) == Some(Num(iv[Located(w, x) - 1]))
    {
      LocatedName(w, x);
    }
  }

  lemma StepTyped(kn: Known, sels: map<nat, Selection>, w: WithId, ty: Types, a: Assign)
    requires TypedAssign(ty, a) && TypedAll(kn, sels, ty) && CleanStep(kn, sels, w, a.rhs)
    requires a.x !in kn.index && a.x !in sels
    requires |w.scalars| > 0 && w.vec in ty.vectors && forall i :: 0 <= i < |w.scalars| ==> w.scalars[i] !in ty.vectors
    ensures TypedAll(Learn(kn, w, a), Selected(sels, a), ty)
  {
    if a.rhs.Copy? {
      LocatedName(w, a.rhs.x);
    } else if a.rhs.Sel? {
      LocatedName(w, a.rhs.index);
    }
  }

  // ---- whole bodies ----

  /** Values and histories are only there for index variables and for variables assigned so far. */
  lemma {:induction false} RunDomain(body: seq<Assign>, w: WithId, arrays: Arrays, iv: seq<int>, k: nat, x: nat)
    requires k <= |body| && |iv| == |w.scalars|
    ensures x in Run(body, w, arrays, iv, k) ==> IsIndexName(w, x) || exists j :: 0 <= j < k && body[j].x == x
    ensures x in Infer(body, w, k).index || x in Infer(body, w, k).lits || x in Selections(body, k) ==>
      exists j :: 0 <= j < k && body[j].x == x
  {
    if k > 0 {
      RunDomain(body, w, arrays, iv, k - 1, x);
    }
  }

  lemma NewName(body: seq<Assign>, w: WithId, arrays: Arrays, iv: seq<int>, k: nat)
    requires Ssa(body, w) && k < |body| && |iv| == |w.scalars|
    ensures Fresh(Infer(body, w, k), Selections(body, k), w, Run(body, w, arrays, iv, k), body[k].x)
  {
    RunDomain(body, w, arrays, iv, k, body[k].x);
  }

  ghost predicate SoundAt(body: seq<Assign>, w: WithId, arrays: Arrays, iv: seq<int>, k: nat)
    requires k <= |body| && |iv| == |w.scalars|
  {
    Sound(Infer(body, w, k), Selections(body, k), Run(body, w, arrays, iv, k), iv)
  }

  ghost predicate GroundedAt(body: seq<Assign>, w: WithId, arrays: Arrays, iv: seq<int>, k: nat)
    requires k <= |body| && |iv| == |w.scalars|
  {
    Grounded(Infer(body, w, k), Selections(body, k), w, arrays, Run(body, w, arrays, iv, k), iv)
  }

  lemma {:induction false} GroundedRun(body: seq<Assign>, w: WithId, arrays: Arrays, iv: seq<int>, k: nat)
    requires Ssa(body, w) && k <= |body| && |iv| == |w.scalars|
    ensures GroundedAt(body, w, arrays, iv, k)
  {
    if k == 0 {
      forall x | 0 < Located(w, x) <= |iv| ensures Get(Entry(w, iv), x) == Some(Num(iv[Located(w, x) - 1])) {
        LocatedName(w, x);
      }
    } else {
      GroundedRun(body, w, arrays, iv, k - 1);
      NewName(body, w, arrays, iv, k - 1);
      hide *;
      StepGrounded(Infer(body, w, k - 1), Selections(body, k - 1), w, body[k - 1], arrays,
        Run(body, w, arrays, iv, k - 1), iv);
      Unfold(body, w, arrays, iv, k);
      UnfoldGrounded(body, w, arrays, iv, k);
      UnfoldGrounded(body, w, arrays, iv, k - 1);
    }
  }

  /** Soundness: after any prefix of the body, as long as no history goes on from that of a selected element, every
      history is about the variable it is attached to, or, of a selected element, about the index, and gives the
      value that the body computes; and none exactly if that is not computed because of a division by zero. */
  lemma {:induction false} InferSound(body: seq<Assign>, w: WithId, ty: Types, arrays: Arrays, iv: seq<int>, k: nat)
    requires Ssa(body, w) && Typed(body, w, ty) && k <= |body| && |iv| == |w.scalars| && CleanTo(body, w, k)
    ensures SoundAt(body, w, arrays, iv, k) && TypedAll(Infer(body, w, k), Selections(body, k), ty)
  {
    hide *;
    if k == 0 {
      NothingKnown(body, w, ty, arrays, iv);
    } else {
      CleanBelow(body, w, k);
      InferSound(body, w, ty, arrays, iv, k - 1);
      SoundStep(body, w, ty, arrays, iv, k - 1);
    }
  }

  lemma NothingKnown(body: seq<Assign>, w: WithId, ty: Types, arrays: Arrays, iv: seq<int>)
    requires |iv| == |w.scalars|
    ensures SoundAt(body, w, arrays, iv, 0) && TypedAll(Infer(body, w, 0), Selections(body, 0), ty)
    ensures FitAll(Infer(body, w, 0))
  {
  }

  lemma CleanBelow(body: seq<Assign>, w: WithId, k: nat)
    requires 0 < k <= |body| && CleanTo(body, w, k)
    ensures CleanTo(body, w, k - 1) && CleanAt(body, w, k - 1)
  {
  }

  lemma SoundStep(body: seq<Assign>, w: WithId, ty: Types, arrays: Arrays, iv: seq<int>, k: nat)
    requires Ssa(body, w) && Typed(body, w, ty) && k < |body| && |iv| == |w.scalars| && CleanAt(body, w, k)
    requires SoundAt(body, w, arrays, iv, k) && TypedAll(Infer(body, w, k), Selections(body, k), ty)
    ensures SoundAt(body, w, arrays, iv, k + 1) && TypedAll(Infer(body, w, k + 1), Selections(body, k + 1), ty)
  {
    hide Sound, Grounded, TypedAll, CleanStep, Learn, Selected, Fresh, TypedAssign, Run, Infer, Selections, ExprValue,
      Bound;
    GroundedRun(body, w, arrays, iv, k);
    NewName(body, w, arrays, iv, k);
    Unfold(body, w, arrays, iv, k + 1);
    var kn, sels, env, a := Infer(body, w, k), Selections(body, k), Run(body, w, arrays, iv, k), body[k];
    StepSound(kn, sels, w, ty, a, arrays, env, iv);
    NotThere(kn, sels, w, env, a.x);
    StepTyped(kn, sels, w, ty, a);
  }

  lemma NotThere(kn: Known, sels: map<nat, Selection>, w: WithId, env: Env, x: nat)
    requires Fresh(kn, sels, w, env, x)
    ensures x !in kn.index && x !in sels
  {
  }

  lemma Unfold(body: seq<Assign>, w: WithId, arrays: Arrays, iv: seq<int>, k: nat)
    requires 0 < k <= |body| && |iv| == |w.scalars|
    ensures var env, a := Run(body, w, arrays, iv, k - 1), body[k - 1];
            && Run(body, w, arrays, iv, k) == Bound(env, a.x, ExprValue(arrays, env, a.rhs))
            && Infer(body, w, k) == Learn(Infer(body, w, k - 1), w, a)
            && Selections(body, k) == Selected(Selections(body, k - 1), a)
  {
  }

  lemma UnfoldGrounded(body: seq<Assign>, w: WithId, arrays: Arrays, iv: seq<int>, k: nat)
    requires k <= |body| && |iv| == |w.scalars|
    ensures GroundedAt(body, w, arrays, iv, k) ==
      Grounded(Infer(body, w, k), Selections(body, k), w, arrays, Run(body, w, arrays, iv, k), iv)
  {
  }

  // ---- selected elements taken for indices ----

  /** The indices of all selections that carry a history can be computed at iv. */
  ghost predicate Reached(body: seq<Assign>, w: WithId, iv: seq<int>)
    requires |iv| == |w.scalars|
  {
    forall k, x {:trigger x in Infer(body, w, k).index} ::
      && 0 <= k <= |body| && x in Infer(body, w, k).index && x in Selections(body, k)
      && Shaped(Infer(body, w, k).index[x], |iv|)
      ==> HistoryValue(Infer(body, w, k).index[x], iv).Some?
  }

  ghost predicate AlwaysSound(body: seq<Assign>, w: WithId, ty: Types, iv: seq<int>)
    requires |iv| == |w.scalars|
  {
    forall arrays: Arrays, k {:trigger SoundAt(body, w, arrays, iv, k)} ::
      Respects(arrays, ty) && 0 <= k <= |body| ==> SoundAt(body, w, arrays, iv, k)
  }

  /** Elements that no history gives: vectors one longer than the one it gives, or numbers. */
  function Unlike(ty: Types, v: Value): Arrays {
    (a, _) => if a in ty.cells then Vec(if v.Vec? then v.s + [0] else []) else Num(0)
  }

  /** The first history that goes on from that of a selected element is wrong. */
  lemma UncleanUnsound(body: seq<Assign>, w: WithId, ty: Types, iv: seq<int>, k: nat)
    requires Ssa(body, w) && Typed(body, w, ty) && |iv| == |w.scalars| && Reached(body, w, iv)
    requires k < |body| && CleanTo(body, w, k) && !CleanAt(body, w, k)
    ensures !AlwaysSound(body, w, ty, iv)
  {
    var kn, sels, a := Infer(body, w, k), Selections(body, k), body[k];
    var y := Continued(kn, w, a.rhs).value;
    InferSound(body, w, ty, Unlike(ty, Num(0)), iv, k);
    var history := kn.index[y];
    assert y in Infer(body, w, k).index;
    var hv := HistoryValue(history, iv).value;
    var arrays := Unlike(ty, hv);
    InferSound(body, w, ty, arrays, iv, k);
    GroundedRun(body, w, arrays, iv, k);
    NewName(body, w, arrays, iv, k);
    var env := Run(body, w, arrays, iv, k);
    assert Get(env, sels[y].index) == Some(hv) && Get(env, y) == Some(arrays(sels[y].arr, hv));
    assert TypedAssign(ty, a) && Respects(arrays, ty);
    Unfold(body, w, arrays, iv, k + 1);
    UncleanStep(kn, sels, w, ty, a, arrays, env, iv, y, hv);
    assert !SoundAt(body, w, arrays, iv, k + 1);
  }

  lemma UncleanStep(kn: Known, sels: map<nat, Selection>, w: WithId, ty: Types, a: Assign, arrays: Arrays, env: Env,
                    iv: seq<int>, y: nat, hv: Value)
    requires Fresh(kn, sels, w, env, a.x) && TypedAssign(ty, a) && TypedAll(kn, sels, ty) && arrays == Unlike(ty, hv)
    requires Continued(kn, w, a.rhs) == Some(y) && y in kn.index && y in sels
    requires Shaped(kn.index[y], |iv|) && HistoryValue(kn.index[y], iv) == Some(hv)
    requires Get(env, y) == Some(arrays(sels[y].arr, hv))
    ensures !Sound(Learn(kn, w, a), Selected(sels, a), Bound(env, a.x, ExprValue(arrays, env, a.rhs)), iv)
  {
    var info := InfoOf(kn, w, a.rhs).value;
    assert info == Learn(kn, w, a).index[a.x];
    assert hv.Vec?;
    match a.rhs {
      case Arith(_, _, _) =>
        assert info.vector == 0 && info.last == [Some(kn.index[y])] && !ScalarHistory(kn.index[y]);
        assert !Shaped(info, |iv|);
      case Copy(_, _) =>
        assert info == kn.index[y] && |hv.s + [0]| != |hv.s|;
      case Sel(_, _, _, _) =>
        assert info == kn.index[y] && |hv.s + [0]| != |hv.s|;
      case _ =>
    }
  }

  /** Whatever the elements of the arrays are, all histories are sound after every prefix of a body, if and only if
      none of them goes on from that of a selected element. */
  lemma SoundExactlyIfClean(body: seq<Assign>, w: WithId, ty: Types, iv: seq<int>)
    requires Ssa(body, w) && Typed(body, w, ty) && |iv| == |w.scalars| && Reached(body, w, iv)
    ensures AlwaysSound(body, w, ty, iv) <==> CleanTo(body, w, |body|)
  {
    if CleanTo(body, w, |body|) {
      forall arrays: Arrays, k | Respects(arrays, ty) && 0 <= k <= |body| ensures SoundAt(body, w, arrays, iv, k) {
        InferSound(body, w, ty, arrays, iv, k);
      }
    } else {
      var k := FirstUnclean(body, w, |body|);
      UncleanUnsound(body, w, ty, iv, k);
    }
  }

  lemma {:induction false} FirstUnclean(body: seq<Assign>, w: WithId, n: nat) returns (k: nat)
    requires n <= |body| && !CleanTo(body, w, n)
    ensures k < n && CleanTo(body, w, k) && !CleanAt(body, w, k)
  {
    if CleanTo(body, w, n - 1) {
      k := n - 1;
    } else {
      k := FirstUnclean(body, w, n - 1);
    }
  }

  /** x := A[iv]; y := x + 1: the history of y says iv[0] + 1, and goes on in that of a vector. */
  lemma ElementTakenForIndex()
    ensures var body := [Assign(2, Sel(0, 0, true, true)), Assign(3, Arith(Add, Id(2), Const(1)))];
            var w, ty := WithId(0, [1]), Types({0}, {});
            && Ssa(body, w) && Typed(body, w, ty) && 3 in Infer(body, w, 2).index
            && (var info := Infer(body, w, 2).index[3];
                && info.vector == 0 && info.last == [Some(VecInfo(1))] && info.permutation == [1]
                && !Shaped(info, 1) && Component(info, 0) && Evaluate(info, 0, 5) == 6)
            && Get(Run(body, w, (_, _) => Num(0), [5], 2), 3) == Some(Num(1))
  {
    hide *;
    var body := [Assign(2, Sel(0, 0, true, true)), Assign(3, Arith(Add, Id(2), Const(1)))];
    var w, arrays: Arrays := WithId(0, [1]), (_, _) => Num(0);
    TakenTyped(body, w);
    TakenInferred(body, w);
    TakenRun(body, w, arrays);
    TakenHistory();
  }

  lemma TakenTyped(body: seq<Assign>, w: WithId)
    requires body == [Assign(2, Sel(0, 0, true, true)), Assign(3, Arith(Add, Id(2), Const(1)))] && w == WithId(0, [1])
    ensures Ssa(body, w) && Typed(body, w, Types({0}, {}))
  {
  }

  lemma TakenInferred(body: seq<Assign>, w: WithId)
    requires body == [Assign(2, Sel(0, 0, true, true)), Assign(3, Arith(Add, Id(2), Const(1)))] && w == WithId(0, [1])
    ensures 3 in Infer(body, w, 2).index && Infer(body, w, 2).index[3] == ScalarInfo(1, Some(VecInfo(1)), Add, 1, 2)
  {
    Unfold(body, w, (_, _) => Num(0), [5], 1);
    Unfold(body, w, (_, _) => Num(0), [5], 2);
    assert Infer(body, w, 0) == Known(map[], map[]) && Infer(body, w, 1).index == map[2 := VecInfo(1)];
  }

  lemma TakenRun(body: seq<Assign>, w: WithId, arrays: Arrays)
    requires body == [Assign(2, Sel(0, 0, true, true)), Assign(3, Arith(Add, Id(2), Const(1)))] && w == WithId(0, [1])
    requires arrays == ((_, _) => Num(0))
    ensures Get(Run(body, w, arrays, [5], 2), 3) == Some(Num(1))
  {
    Unfold(body, w, arrays, [5], 1);
    Unfold(body, w, arrays, [5], 2);
    assert Run(body, w, arrays, [5], 0) == Entry(w, [5]);
    assert Get(Run(body, w, arrays, [5], 1), 2) == Some(Num(0));
  }

  lemma TakenHistory()
    ensures var info := ScalarInfo(1, Some(VecInfo(1)), Add, 1, 2);
            && info.vector == 0 && info.last == [Some(VecInfo(1))] && info.permutation == [1]
            && !Shaped(info, 1) && Component(info, 0) && Evaluate(info, 0, 5) == 6
  {
    assert Component(VecInfo(1), 0) && Evaluate(VecInfo(1), 0, 5) == 5;
  }

  // ---- which histories generators can be pulled back through ----

  /** Every division is one by a constant other than zero. */
  predicate Fit(info: IndexInfo) {
    if info.vector == 0 then Component(info, 0) else VectorHistory(info)
  }

  /** If the operation gets a history, it is no `constant / index` and no division by zero: what LinearTransformations
      can deal with. */
  predicate GoodStep(kn: Known, w: WithId, e: Expr) {
    e.Arith? && e.op == Div && InfoOf(kn, w, e).Some? ==>
      ConstSecond(kn, e.left, e.right) && ConstantOf(kn, e.right).value != 0
  }

  predicate GoodAt(body: seq<Assign>, w: WithId, k: nat)
    requires k < |body|
  {
    GoodStep(Infer(body, w, k), w, body[k].rhs)
  }

  ghost predicate FitAll(kn: Known) {
    forall x :: x in kn.index ==> Fit(kn.index[x])
  }

  ghost predicate ShapedAll(kn: Known, n: nat) {
    forall x :: x in kn.index ==> Shaped(kn.index[x], n)
  }

  /** The slot of a scalar history is 0 whatever component it belongs to. */
  lemma {:induction false} AnySlot(info: IndexInfo, d: nat, x: int)
    requires ScalarHistory(info)
    ensures Component(info, d) <==> Component(info, 0)
    ensures Component(info, 0) ==> Evaluate(info, d, x) == Evaluate(info, 0, x)
    decreases info
  {
    if info.last[0].Some? {
      AnySlot(info.last[0].value, d, if Component(info, 0) then x else 0);
    }
  }

  lemma StepFits(kn: Known, sels: map<nat, Selection>, w: WithId, ty: Types, a: Assign, n: nat)
    requires ShapedAll(kn, n) && FitAll(kn) && n == |w.scalars| > 0 && InfoOf(kn, w, a.rhs).Some?
    requires TypedAssign(ty, a) && TypedAll(kn, sels, ty) && CleanStep(kn, sels, w, a.rhs)
    ensures Fit(InfoOf(kn, w, a.rhs).value) <==> GoodStep(kn, w, a.rhs)
  {
    match a.rhs {
      case Array(elems) => ArrayFits(kn, w, elems, Elements(kn, w, elems).value, n);
      case Arith(_, _, _) =>
        var x := Continued(kn, w, a.rhs).value;
        assert x in kn.index ==> Shaped(kn.index[x], n) && Fit(kn.index[x]) && kn.index[x].vector == 0;
      case Copy(x, _) => IdFits(kn, w, x, n);
      case Sel(_, x, _, _) => IdFits(kn, w, x, n);
      case _ =>
    }
  }

  lemma IdFits(kn: Known, w: WithId, x: nat, n: nat)
    requires n == |w.scalars| > 0 && InfoId(kn, w, x).Some? && FitAll(kn)
    ensures Fit(InfoId(kn, w, x).value)
  {
    assert forall d :: 0 <= d < n ==> Component(VecInfo(n), d);
  }

  lemma ArrayFits(kn: Known, w: WithId, elems: seq<Arg>, es: seq<Element>, n: nat)
    requires ShapedAll(kn, n) && n == |w.scalars| && Elements(kn, w, elems) == Some(es) && elems != [] && FitAll(kn)
    ensures VectorHistory(ArrayInfo(es))
  {
    var info := ArrayInfo(es);
    forall d | 0 <= d < |es|
      ensures if info.permutation[d] > 0 then Component(info, d) else info.last[d].None?
      ensures info.last[d].Some? ==> ScalarHistory(info.last[d].value)
    {
      assert ElementOf(kn, w, elems[d]) == Some(es[d]);
      if es[d].last.Some? {
        assert Shaped(kn.index[elems[d].x], n) && Fit(kn.index[elems[d].x]);
        AnySlot(es[d].last.value, d, 0);
      }
    }
  }

  lemma ShapedInfer(body: seq<Assign>, w: WithId, ty: Types, k: nat)
    requires Ssa(body, w) && Typed(body, w, ty) && k <= |body| && CleanTo(body, w, k)
    ensures ShapedAll(Infer(body, w, k), |w.scalars|) && TypedAll(Infer(body, w, k), Selections(body, k), ty)
  {
    InferSound(body, w, ty, Unlike(ty, Num(0)), seq(|w.scalars|, _ => 0), k);
  }

  /** All histories of a clean body are ones that generators can be pulled back through, if and only if no history is
      attached to a `constant / index` or to a division by zero. */
  lemma {:induction false} InferFits(body: seq<Assign>, w: WithId, ty: Types, k: nat)
    requires Ssa(body, w) && Typed(body, w, ty) && k <= |body| && CleanTo(body, w, k)
    ensures FitAll(Infer(body, w, k)) <==> forall j :: 0 <= j < k ==> GoodAt(body, w, j)
  {
    hide *;
    if k == 0 {
      NothingKnown(body, w, ty, Unlike(ty, Num(0)), seq(|w.scalars|, _ => 0));
    } else {
      CleanBelow(body, w, k);
      InferFits(body, w, ty, k - 1);
      FitsStep(body, w, ty, k - 1);
    }
  }

  lemma FitsStep(body: seq<Assign>, w: WithId, ty: Types, k: nat)
    requires Ssa(body, w) && Typed(body, w, ty) && k < |body| && CleanTo(body, w, k) && CleanAt(body, w, k)
    ensures FitAll(Infer(body, w, k + 1)) <==> FitAll(Infer(body, w, k)) && GoodAt(body, w, k)
  {
    hide Learn, FitAll, GoodStep, ShapedAll, TypedAll, CleanStep, TypedAssign, Infer, Selections, Run;
    ShapedInfer(body, w, ty, k);
    var kn, sels, a := Infer(body, w, k), Selections(body, k), body[k];
    NewName(body, w, Unlike(ty, Num(0)), seq(|w.scalars|, _ => 0), k);
    LearnFits(kn, sels, w, ty, a);
    UnfoldFits(body, w, k + 1);
  }

  lemma UnfoldFits(body: seq<Assign>, w: WithId, k: nat)
    requires 0 < k <= |body|
    ensures Infer(body, w, k) == Learn(Infer(body, w, k - 1), w, body[k - 1])
    ensures GoodAt(body, w, k - 1) == GoodStep(Infer(body, w, k - 1), w, body[k - 1].rhs)
  {
  }

  lemma LearnFits(kn: Known, sels: map<nat, Selection>, w: WithId, ty: Types, a: Assign)
    requires ShapedAll(kn, |w.scalars|) && |w.scalars| > 0 && a.x !in kn.index
    requires TypedAssign(ty, a) && TypedAll(kn, sels, ty) && CleanStep(kn, sels, w, a.rhs)
    ensures FitAll(Learn(kn, w, a)) <==> FitAll(kn) && GoodStep(kn, w, a.rhs)
  {
    var kn' := Learn(kn, w, a);
    if FitAll(kn) && InfoOf(kn, w, a.rhs).Some? {
      StepFits(kn, sels, w, ty, a, |w.scalars|);
    }
    hide Fit;
    if FitAll(kn') {
      forall x | x in kn.index ensures Fit(kn.index[x]) {
        assert kn'.index[x] == kn.index[x];
      }
      assert InfoOf(kn, w, a.rhs).Some? ==> a.x in kn'.index && Fit(kn'.index[a.x]);
    }
  }

  /** y := 5 / i gets a history that no generator can be pulled back through. */
  lemma ConstantOverIndex()
    ensures var body, w := [Assign(2, Arith(Div, Const(5), Id(1)))], WithId(0, [1]);
            && Ssa(body, w) && Typed(body, w, Types({0}, {})) && 2 in Infer(body, w, 1).index
            && Infer(body, w, 1).index[2] == ScalarInfo(1, None, Div, 5, 1) && !Fit(Infer(body, w, 1).index[2])
  {
    var body, w := [Assign(2, Arith(Div, Const(5), Id(1)))], WithId(0, [1]);
    assert Infer(body, w, 0) == Known(map[], map[]);
    assert Infer(body, w, 1) == Learn(Infer(body, w, 0), w, body[0]);
  }

  // ---- what folding relies on ----

  /** A history that generators can be pulled back through never divides by zero. */
  lemma {:induction false} ScalarFits(info: IndexInfo, n: nat, x: int)
    requires ScalarShaped(info, n) && Component(info, 0)
    ensures ScalarValue(info, n, x) == Some(Evaluate(info, 0, x))
    decreases info
  {
    if info.last[0].Some? {
      ScalarFits(info.last[0].value, n, x);
    }
  }

  lemma VectorFits(info: IndexInfo, iv: seq<int>)
    requires VectorShaped(info, |iv|) && VectorHistory(info)
    ensures Addresses(info, |iv|) && HistoryValue(info, iv) == Some(Vec(Index(info, iv)))
  {
    forall d | 0 <= d < info.vector ensures ComponentValue(info, iv, d) == Some(Index(info, iv)[d]) {
      if info.permutation[d] > 0 && info.last[d].Some? {
        AnySlot(info.last[d].value, d, iv[info.permutation[d] - 1]);
        ScalarFits(info.last[d].value, |iv|, iv[info.permutation[d] - 1]);
      }
    }
    assert HistoryValue(info, iv).value.s == Index(info, iv);
  }

  /** The history attached to a selection, if generators can be pulled back through it, addresses the index scalars,
      and the selection vector it evaluates to is the one the body has computed. */
  lemma SelectionIndexed(body: seq<Assign>, w: WithId, ty: Types, arrays: Arrays, iv: seq<int>, k: nat)
    requires Ssa(body, w) && Typed(body, w, ty) && k < |body| && |iv| == |w.scalars| && CleanTo(body, w, k + 1)
    requires body[k].rhs.Sel? && body[k].x in Infer(body, w, k + 1).index && Fit(Infer(body, w, k + 1).index[body[k].x])
    ensures var info := Infer(body, w, k + 1).index[body[k].x];
            && VectorHistory(info) && Addresses(info, |iv|)
            && Get(Run(body, w, arrays, iv, k), body[k].rhs.index) == Some(Vec(Index(info, iv)))
  {
    var kn, sels, env, a := Infer(body, w, k), Selections(body, k), Run(body, w, arrays, iv, k), body[k];
    assert CleanTo(body, w, k) && CleanAt(body, w, k) && TypedAssign(ty, a);
    InferSound(body, w, ty, arrays, iv, k);
    InferSound(body, w, ty, arrays, iv, k + 1);
    GroundedRun(body, w, arrays, iv, k);
    NewName(body, w, arrays, iv, k);
    Unfold(body, w, arrays, iv, k + 1);
    var info := Infer(body, w, k + 1).index[a.x];
    StepDescribes(kn, sels, w, ty, a, arrays, env, iv);
    assert info == InfoOf(kn, w, a.rhs).value && info.vector > 0;
    VectorFits(info, iv);
  }

  // ---- which assignments get a history ----

  /** A literal, or a variable assigned one in the first k assignments. */
  predicate IsConstant(body: seq<Assign>, k: nat, a: Arg)
    requires k <= |body|
  {
    a.Const? || exists j :: 0 <= j < k && body[j].x == a.x && body[j].rhs.Lit?
  }

  /** x has been assigned something that has a history. */
  predicate Indexed(body: seq<Assign>, w: WithId, k: nat, x: nat)
    requires k <= |body|
    decreases k, 0
  {
    k > 0 && if body[k - 1].x == x then Attached(body, w, k - 1) else Indexed(body, w, k - 1, x)
  }

  /** A variable that the history of another one can start from or go on from. */
  predicate Follows(body: seq<Assign>, w: WithId, k: nat, x: nat)
    requires k <= |body|
    decreases k, 1
  {
    x in w.scalars || Indexed(body, w, k, x)
  }

  /** The history of x is one of a vector: of one built from scalars, of the index vector, or of a copy or a selected
      element of such a variable. */
  predicate VectorIndexed(body: seq<Assign>, w: WithId, k: nat, x: nat)
    requires k <= |body|
    decreases k
  {
    k > 0 &&
      if body[k - 1].x != x then VectorIndexed(body, w, k - 1, x) else
        match body[k - 1].rhs
        case Array(_) => true
        case Copy(y, _) => y == w.vec || VectorIndexed(body, w, k - 1, y)
        case Sel(_, y, _, _) => y == w.vec || VectorIndexed(body, w, k - 1, y)
        case _ => false
  }

  /** Assignment j gets a history: an operation on a constant and a scalar that follows the index, in either order; a
      vector of constants, index scalars, and variables with a scalar history; a copy or a foldable selection, if the
      shape is known, by the index vector or by what follows the index. */
  predicate Attached(body: seq<Assign>, w: WithId, j: nat)
    requires j < |body|
    decreases j, 2
  {
    match body[j].rhs
    case Arith(_, left, right) =>
      || (left.Id? && Follows(body, w, j, left.x) && IsConstant(body, j, right))
      || (right.Id? && Follows(body, w, j, right.x) && IsConstant(body, j, left))
    case Array(elems) => forall i :: 0 <= i < |elems| ==> ElementFollows(body, w, j, elems[i])
    case Copy(y, shapeKnown) => shapeKnown && (y == w.vec || Follows(body, w, j, y))
    case Sel(_, y, shapeKnown, foldable) => shapeKnown && foldable && (y == w.vec || Follows(body, w, j, y))
    case Lit(_) => false
    case Other => false
  }

  predicate ElementFollows(body: seq<Assign>, w: WithId, k: nat, a: Arg)
    requires k <= |body|
    decreases k, 1
  {
    || IsConstant(body, k, a)
    || (a.Id? && (a.x in w.scalars || (Indexed(body, w, k, a.x) && !VectorIndexed(body, w, k, a.x))))
  }

  /** What has been learned about x. */
  ghost predicate Learned(body: seq<Assign>, w: WithId, k: nat, x: nat)
    requires k <= |body|
  {
    var kn := Infer(body, w, k);
    && (x in kn.index <==> Indexed(body, w, k, x))
    && (x in kn.index ==> (kn.index[x].vector > 0 <==> VectorIndexed(body, w, k, x)))
    && (x in kn.lits <==> IsConstant(body, k, Id(x)))
  }

  /** By single assignment, assignment j says it all about its variable. */
  lemma {:induction false} IndexedAt(body: seq<Assign>, w: WithId, k: nat, j: nat)
    requires Ssa(body, w) && j < k <= |body|
    ensures Indexed(body, w, k, body[j].x) <==> Attached(body, w, j)
  {
    hide Attached;
    if j < k - 1 {
      IndexedAt(body, w, k - 1, j);
    }
  }

  /** Constants do not follow the index. */
  lemma ConstantStays(body: seq<Assign>, w: WithId, k: nat, a: Arg)
    requires Ssa(body, w) && k <= |body| && IsConstant(body, k, a)
    ensures a.Id? ==> !Follows(body, w, k, a.x)
  {
    if a.Id? {
      var j :| 0 <= j < k && body[j].x == a.x && body[j].rhs.Lit?;
      IndexedAt(body, w, k, j);
    }
  }

  lemma {:induction false} VectorAssigned(body: seq<Assign>, w: WithId, k: nat, x: nat)
    requires Ssa(body, w) && k <= |body|
    ensures IsIndexName(w, x) ==> !VectorIndexed(body, w, k, x) && !Indexed(body, w, k, x)
  {
    hide Attached;
    if k > 0 {
      VectorAssigned(body, w, k - 1, x);
    }
  }

  /** A name that the history of another can start from. */
  lemma LocatedIs(body: seq<Assign>, w: WithId, ty: Types, x: nat)
    requires Ssa(body, w) && Typed(body, w, ty)
    ensures (Located(w, x) < 0 <==> x == w.vec) && (Located(w, x) > 0 <==> x in w.scalars)
  {
    LocatedName(w, x);
  }

  ghost predicate AllLearned(body: seq<Assign>, w: WithId, k: nat)
    requires k <= |body|
  {
    forall x :: Learned(body, w, k, x)
  }

  lemma ConstantLearned(body: seq<Assign>, w: WithId, k: nat, a: Arg)
    requires k <= |body| && AllLearned(body, w, k)
    ensures ConstantOf(Infer(body, w, k), a).Some? <==> IsConstant(body, k, a)
  {
    if a.Id? {
      assert Learned(body, w, k, a.x);
    }
  }

  lemma FollowsLearned(body: seq<Assign>, w: WithId, ty: Types, k: nat, x: nat)
    requires Ssa(body, w) && Typed(body, w, ty) && k <= |body| && AllLearned(body, w, k)
    ensures Follows(body, w, k, x) <==> x in Infer(body, w, k).index || Located(w, x) > 0
    ensures x in Infer(body, w, k).index ==>
      (Infer(body, w, k).index[x].vector > 0 <==> VectorIndexed(body, w, k, x)) && Located(w, x) == 0
    ensures Located(w, x) != 0 ==> !VectorIndexed(body, w, k, x)
  {
    assert Learned(body, w, k, x);
    LocatedIs(body, w, ty, x);
    VectorAssigned(body, w, k, x);
    hide Infer, Indexed, VectorIndexed;
  }

  lemma ArithLearned(body: seq<Assign>, w: WithId, ty: Types, k: nat)
    requires Ssa(body, w) && Typed(body, w, ty) && k < |body| && AllLearned(body, w, k) && body[k].rhs.Arith?
    ensures var info := InfoOf(Infer(body, w, k), w, body[k].rhs);
            (info.Some? <==> Attached(body, w, k)) && (info.Some? ==> info.value.vector == 0)
  {
    var left, right := body[k].rhs.left, body[k].rhs.right;
    ConstantLearned(body, w, k, left);
    ConstantLearned(body, w, k, right);
    if left.Id? {
      FollowsLearned(body, w, ty, k, left.x);
    }
    if right.Id? {
      FollowsLearned(body, w, ty, k, right.x);
    }
    if IsConstant(body, k, right) {
      ConstantStays(body, w, k, right);
    }
    hide Infer, Follows, AllLearned, Ssa, Typed, IsConstant, ConstantOf, Located;
  }

  lemma ArrayLearned(body: seq<Assign>, w: WithId, ty: Types, k: nat)
    requires Ssa(body, w) && Typed(body, w, ty) && k < |body| && AllLearned(body, w, k) && body[k].rhs.Array?
    ensures var info := InfoOf(Infer(body, w, k), w, body[k].rhs);
            (info.Some? <==> Attached(body, w, k)) && (info.Some? ==> info.value.vector > 0)
  {
    var elems := body[k].rhs.elems;
    assert TypedAssign(ty, body[k]);
    forall i | 0 <= i < |elems|
      ensures ElementOf(Infer(body, w, k), w, elems[i]).Some? <==> ElementFollows(body, w, k, elems[i])
    {
      ElementLearned(body, w, ty, k, elems[i]);
    }
    hide Infer, ElementOf, ElementFollows, AllLearned, Ssa, Typed;
  }

  lemma ElementLearned(body: seq<Assign>, w: WithId, ty: Types, k: nat, a: Arg)
    requires Ssa(body, w) && Typed(body, w, ty) && k <= |body| && AllLearned(body, w, k)
    ensures ElementOf(Infer(body, w, k), w, a).Some? <==> ElementFollows(body, w, k, a)
  {
    ConstantLearned(body, w, k, a);
    if a.Id? {
      FollowsLearned(body, w, ty, k, a.x);
      LocatedIs(body, w, ty, a.x);
      assert Learned(body, w, k, a.x);
    }
    hide Infer, AllLearned, Ssa, Typed, IsConstant, ConstantOf, Located, VectorIndexed, Indexed;
  }

  lemma IdLearned(body: seq<Assign>, w: WithId, ty: Types, k: nat, y: nat)
    requires Ssa(body, w) && Typed(body, w, ty) && k <= |body| && AllLearned(body, w, k)
    ensures var info := InfoId(Infer(body, w, k), w, y);
            && (info.Some? <==> y == w.vec || Follows(body, w, k, y))
            && (info.Some? ==> (info.value.vector > 0 <==> y == w.vec || VectorIndexed(body, w, k, y)))
  {
    FollowsLearned(body, w, ty, k, y);
    LocatedIs(body, w, ty, y);
    hide Infer, Located, VectorIndexed, Follows;
  }

  lemma StepLearned(body: seq<Assign>, w: WithId, ty: Types, k: nat)
    requires Ssa(body, w) && Typed(body, w, ty) && k < |body| && AllLearned(body, w, k)
    ensures var info := InfoOf(Infer(body, w, k), w, body[k].rhs);
            && (info.Some? <==> Attached(body, w, k))
            && (info.Some? ==> (info.value.vector > 0 <==> VectorIndexed(body, w, k + 1, body[k].x)))
  {
    hide Ssa, Typed, AllLearned, Infer, InfoId, Follows;
    match body[k].rhs {
      case Arith(_, _, _) => ArithLearned(body, w, ty, k);
      case Array(_) => ArrayLearned(body, w, ty, k);
      case Copy(y, _) => IdLearned(body, w, ty, k, y);
      case Sel(_, y, _, _) => IdLearned(body, w, ty, k, y);
      case Lit(_) =>
      case Other =>
    }
  }

  lemma ConstantNext(body: seq<Assign>, k: nat, a: Arg)
    requires k < |body|
    ensures IsConstant(body, k + 1, a) <==> IsConstant(body, k, a) || (a.Id? && body[k].x == a.x && body[k].rhs.Lit?)
  {
  }

  /** A history is attached exactly to what follows the index, as far as WLI looks at it: whether a variable has one can
      be read off the body. */
  lemma {:induction false} InferComplete(body: seq<Assign>, w: WithId, ty: Types, k: nat)
    requires Ssa(body, w) && Typed(body, w, ty) && k <= |body|
    ensures AllLearned(body, w, k)
  {
    if k > 0 {
      InferComplete(body, w, ty, k - 1);
      StepLearned(body, w, ty, k - 1);
      RunDomain(body, w, (_, _) => Num(0), seq(|w.scalars|, _ => 0), k - 1, body[k - 1].x);
      forall x ensures Learned(body, w, k, x) {
        assert Learned(body, w, k - 1, x);
        ConstantNext(body, k - 1, Id(x));
        hide InfoOf, Attached, IsConstant;
      }
    }
  }

  /** v := [i, 3]: the vector gets the history with permutation [1, 0] and constant 3. */
  lemma IndexAndConstant()
    ensures var kn, w := Known(map[], map[]), WithId(0, [1]);
            InfoOf(kn, w, Array([Id(1), Const(3)])) ==
              Some(IndexInfo(2, [1, 0], [None, None], Add, [0, 3], 0))
  {
    var kn, w := Known(map[], map[]), WithId(0, [1]);
    var elems := [Id(1), Const(3)];
    assert Located(w, 1) == 1;
    assert ElementOf(kn, w, elems[0]) == Some(Element(1, None, 0));
    assert ElementOf(kn, w, elems[1]) == Some(Element(0, None, 3));
    assert Elements(kn, w, elems).Some?;
    var es := Elements(kn, w, elems).value;
    assert es == [Element(1, None, 0), Element(0, None, 3)];
    var info := ArrayInfo(es);
    assert info.permutation == [1, 0] && info.last == [None, None] && info.constArg == [0, 3];
  }

  // ---- the functions of the source ----

  /** The traversal's state: the loop whose body is traversed, and what is attached to its assignments. */
  class Traversal {
    const withId: WithId
    var known: Known

    constructor (withId: WithId)
      ensures this.withId == withId && known == Known(map[], map[])
    {
      this.withId := withId;
      known := Known(map[], map[]);
    }

    /** WLFlocateIndexVar. */
    method LocateIndexVar(x: nat) returns (result: int)
      ensures result == Located(withId, x)
    {
      if withId.vec == x {
        return -1;
      }
      result := 0;
      var i := 0;
      while i < |withId.scalars| && result == 0
        invariant 0 <= i <= |withId.scalars|
        invariant result == 0 ==> LocatedScalar(withId.scalars, x, 0) == LocatedScalar(withId.scalars, x, i)
        invariant result != 0 ==> result == LocatedScalar(withId.scalars, x, 0)
      {
        if withId.scalars[i] == x {
          result := i + 1;
        }
        i := i + 1;
      }
    }

    /** WLFvalidLocalId: the history at the assignment that defines x. */
    method ValidLocalId(x: nat) returns (iinfo: Option<IndexInfo>)
      ensures iinfo.Some? <==> x in known.index
      ensures iinfo.Some? ==> iinfo.value == known.index[x]
    {
      iinfo := if x in known.index then Some(known.index[x]) else None;
    }

    /** One element of an index vector under construction. */
    method CheckElement(idn: Arg) returns (element: Option<Element>)
      requires Based(known)
      ensures element == ElementOf(known, withId, idn)
    {
      element := None;
      var cval := ConstantOf(known, idn);
      if cval.Some? {
        element := Some(Element(0, None, cval.value));
      }
      if idn.Id? {
        var tmpii := ValidLocalId(idn.x);
        if tmpii.Some? && tmpii.value.vector == 0 {
          assert |tmpii.value.permutation| > 0;
          element := Some(Element(tmpii.value.permutation[0], tmpii, 0));
        } else {
          var permutation := LocateIndexVar(idn.x);
          if 0 < permutation {
            element := Some(Element(permutation, None, 0));
          }
        }
      }
    }

    /** A vector of constants, index scalars and transformed index scalars; nothing otherwise. */
    method Scalar2ArrayIndex(elems: seq<Arg>) returns (iinfo: Option<IndexInfo>)
      requires Based(known)
      ensures iinfo == InfoOf(known, withId, Array(elems))
    {
      var es: seq<Element> := [];
      var ok, i := true, 0;
      while i < |elems| && ok
        invariant 0 <= i <= |elems|
        invariant ok ==> |es| == i && forall j :: 0 <= j < i ==> ElementOf(known, withId, elems[j]) == Some(es[j])
        invariant !ok ==> i > 0 && ElementOf(known, withId, elems[i - 1]).None?
      {
        var element := CheckElement(elems[i]);
        if element.Some? {
          es := es + [element.value];
        } else {
          ok := false;
        }
        i := i + 1;
      }
      if ok {
        assert Elements(known, withId, elems).value == es;
        iinfo := Some(ArrayInfo(es));
      } else {
        iinfo := None;
      }
    }

    /** An index vector, an index scalar, or a local variable with a history. */
    method CreateIndexInfoId(x: nat, shapeKnown: bool) returns (iinfo: Option<IndexInfo>)
      ensures iinfo == if shapeKnown then InfoId(known, withId, x) else None
    {
      iinfo := None;
      if shapeKnown {
        var indexVar := LocateIndexVar(x);
        if indexVar < 0 {
          var elts := |withId.scalars|;
          var permutation: seq<nat>, last, constArg := [], [], [];
          for i := 0 to elts
            invariant |permutation| == |last| == |constArg| == i
            invariant forall j :: 0 <= j < i ==> permutation[j] == j + 1 && last[j] == None && constArg[j] == 0
          {
            permutation, last, constArg := permutation + [i + 1], last + [None], constArg + [0];
          }
          iinfo := Some(IndexInfo(elts, permutation, last, Add, constArg, 0));
          assert iinfo.value == VecInfo(elts);
        } else if indexVar > 0 {
          iinfo := Some(ScalarInfo(indexVar, None, Add, 0, 0));
        } else {
          iinfo := ValidLocalId(x);
        }
      }
    }

    /** A variable and a constant, in either order; the variable is a scalar. */
    method CreateIndexInfoSxS(op: Prf, left: Arg, right: Arg) returns (iinfo: Option<IndexInfo>)
      requires Based(known) && left != Id(withId.vec) && right != Id(withId.vec)
      ensures iinfo == InfoOf(known, withId, Arith(op, left, right))
    {
      iinfo := None;
      var constSecond := left.Id? && ConstantOf(known, right).Some?;
      if constSecond || (right.Id? && ConstantOf(known, left).Some?) {
        var x, cval := if constSecond then left.x else right.x,
                       if constSecond then ConstantOf(known, right).value else ConstantOf(known, left).value;
        var local := ValidLocalId(x);
        var indexVar := 0;
        if local.None? {
          indexVar := LocateIndexVar(x);
        }
        if local.Some? || indexVar != 0 {
          iinfo := Some(ScalarInfo(if indexVar != 0 then indexVar else local.value.permutation[0],
                                   local, op, cval, if constSecond then 2 else 1));
        }
      }
    }

    /** WLIlet for one assignment. */
    method Let(a: Assign)
      requires Based(known)
      requires a.rhs.Arith? ==> a.rhs.left != Id(withId.vec) && a.rhs.right != Id(withId.vec)
      modifies this`known
      ensures known == Learn(old(known), withId, a)
    {
      var iinfo := None;
      match a.rhs {
        case Lit(c) =>
          known := known.(lits := known.lits[a.x := c]);
        case Arith(op, left, right) =>
          iinfo := CreateIndexInfoSxS(op, left, right);
        case Array(elems) =>
          iinfo := Scalar2ArrayIndex(elems);
        case Copy(x, shapeKnown) =>
          iinfo := CreateIndexInfoId(x, shapeKnown);
        case Sel(_, x, shapeKnown, foldable) =>
          iinfo := CreateIndexInfoId(x, shapeKnown);
          if !foldable {
            iinfo := None;
          }
        case Other =>
      }
      if iinfo.Some? {
        known := known.(index := known.index[a.x := iinfo.value]);
      }
    }

    /** The assignments of a body in order. */
    method Traverse(body: seq<Assign>, ghost ty: Types)
      requires Ssa(body, withId) && Typed(body, withId, ty) && known == Known(map[], map[])
      modifies this`known
      ensures known == Infer(body, withId, |body|)
      ensures forall x :: x in known.index <==> Indexed(body, withId, |body|, x)
      ensures CleanTo(body, withId, |body|) ==>
        forall arrays: Arrays, iv {:trigger Run(body, withId, arrays, iv, |body|)} :: |iv| == |withId.scalars| ==>
          Sound(known, Selections(body, |body|), Run(body, withId, arrays, iv, |body|), iv)
    {
      hide Learn, Ssa, CleanAt, Sound, Run, Selections;
      for k := 0 to |body|
        invariant known == Infer(body, withId, k)
      {
        InferBased(body, withId, ty, k);
        assert TypedAssign(ty, body[k]);
        Let(body[k]);
      }
      InferComplete(body, withId, ty, |body|);
      forall x ensures x in known.index <==> Indexed(body, withId, |body|, x) {
        assert Learned(body, withId, |body|, x);
      }
      if CleanTo(body, withId, |body|) {
        forall arrays: Arrays, iv: seq<int> | |iv| == |withId.scalars|
          ensures Sound(known, Selections(body, |body|), Run(body, withId, arrays, iv, |body|), iv)
        {
          InferSound(body, withId, ty, arrays, iv, |body|);
        }
      }
    }
  }

  /** Every history has a first component. */
  ghost predicate Based(kn: Known) {
    forall x :: x in kn.index ==> |kn.index[x].permutation| > 0
  }

  lemma {:induction false} InferBased(body: seq<Assign>, w: WithId, ty: Types, k: nat)
    requires Ssa(body, w) && Typed(body, w, ty) && k <= |body|
    ensures Based(Infer(body, w, k))
  {
    if k > 0 {
      InferBased(body, w, ty, k - 1);
      assert TypedAssign(ty, body[k - 1]);
    }
  }
}
