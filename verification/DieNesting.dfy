// The nesting stack of scan_unit_for_symbols: which function each inlined
// subroutine is called from.

module DieNesting {

  // Whether the tag is DW_TAG_subprogram or DW_TAG_entry_point,
  // DW_TAG_inlined_subroutine, or any other.
  datatype Kind = Function | Inlined | Other

  // Sibling DIEs, each with its children: a DIE tree (DWARF 4, section 2.3).  A DIE
  // may be flagged as having children and have none.
  datatype Dies = Nil | Cons(kind: Kind, hasChildren: bool, children: Dies, rest: Dies)
  {
    predicate Ok() {
      Cons? ==> (!hasChildren ==> children == Nil) && children.Ok() && rest.Ok()
    }
  }

  // The stream that the scan reads: null entries, DIEs, and abbreviation numbers
  // that are not in the table.
  datatype Token = Null | Entry(kind: Kind, hasChildren: bool) | Unknown

  // The DIEs in preorder; a DIE's children are closed by a null entry.
  function Flatten(ds: Dies): seq<Token>
    decreases ds, 0
  {
    match ds
    case Nil => []
    case Cons(k, h, children, rest) => FlattenOne(k, h, children) + Flatten(rest)
  }

  // The tokens of one DIE and its children.
  function FlattenOne(k: Kind, h: bool, children: Dies): seq<Token>
    decreases children, 1
  {
    [Entry(k, h)] + if h then Flatten(children) + [Null] else []
  }

  // Functions are numbered in preorder.
  datatype Caller = NoCaller | From(func: nat)

  // ---------- the tree's answer ----------

  // For each function DIE in preorder, its caller: for an inlined subroutine the
  // nearest enclosing function DIE.  around is that of the siblings, and first the
  // number of the first function among them and below them.
  function Callers(ds: Dies, around: Caller, first: nat): (r: seq<Caller>)
    decreases ds, 0
  {
    match ds
    case Nil => []
    case Cons(k, _, children, rest) =>
      var own := Own(k, children, around, first);
      own + Callers(rest, around, first + |own|)
  }

  // The entries of one DIE and all that is below it.
  function Own(k: Kind, children: Dies, around: Caller, first: nat): seq<Caller>
    decreases children, 1
  {
    var here := Here(k, around);
    here + Callers(children, if k.Other? then around else From(first), first + |here|)
  }

  // The entry of one DIE itself.
  function Here(k: Kind, around: Caller): seq<Caller> {
    if k.Other? then [] else if k.Inlined? then [around] else [NoCaller]
  }

  // ---------- the stack's answer ----------

  // `nested_funcs` up to nesting_level, and the caller_func of each function so far.
  datatype State = State(stack: seq<Caller>, callers: seq<Caller>)

  // `for (i = nesting_level; i-- != 0; )`
  function Nearest(stack: seq<Caller>): (c: Caller)
  {
    if stack == [] then NoCaller
    else if stack[|stack| - 1].From? then stack[|stack| - 1]
    else Nearest(stack[..|stack| - 1])
  }

  // What one DIE does.
  function Step(s: State, kind: Kind, hasChildren: bool): (r: State)
    requires s.stack != []
    ensures |r.stack| == |s.stack| + if hasChildren then 1 else 0
  {
    var below := s.stack[..|s.stack| - 1];
    var top := if kind.Other? then NoCaller else From(|s.callers|);
    State(below + [top] + (if hasChildren then [NoCaller] else []), s.callers + Here(kind, Nearest(below)))
  }

  datatype Outcome = Failed | Done(callers: seq<Caller>)

  // The whole loop.
  function Run(tokens: seq<Token>, s: State): Outcome
    decreases |tokens|
  {
    if s.stack == [] then Done(s.callers)
    else if tokens == [] || tokens[0].Unknown? then Failed
    else if tokens[0].Null? then Run(tokens[1..], s.(stack := s.stack[..|s.stack| - 1]))
    else Run(tokens[1..], Step(s, tokens[0].kind, tokens[0].hasChildren))
  }

  // ---------- the two agree ----------

  function Below(s: State): seq<Caller>
    requires s.stack != []
  {
    s.stack[..|s.stack| - 1]
  }

  // t is s with the callers of ds, and the top slot changed at most.
  predicate Scanned(ds: Dies, s: State, t: State) {
    && s.stack != [] && |t.stack| == |s.stack| && Below(t) == Below(s)
    && t.callers == s.callers + Callers(ds, Nearest(Below(s)), |s.callers|)
  }

  // t is s after one DIE with its children.
  predicate ScannedOne(k: Kind, children: Dies, s: State, t: State) {
    && s.stack != [] && |t.stack| == |s.stack| && Below(t) == Below(s)
    && t.callers == s.callers + Own(k, children, Nearest(Below(s)), |s.callers|)
  }

  // What the children see around them.
  lemma ChildrenSee(k: Kind, s: State)
    requires s.stack != []
    ensures var s1 := Step(s, k, true);
            && Below(s1) == Below(s) + [if k.Other? then NoCaller else From(|s.callers|)]
            && Nearest(Below(s1)) == if k.Other? then Nearest(Below(s)) else From(|s.callers|)
  {
    var b := Below(s) + [if k.Other? then NoCaller else From(|s.callers|)];
    assert Below(Step(s, k, true)) == b && b[..|b| - 1] == Below(s);
  }

  // The null entry after the children takes the scan back to the DIE's level.
  lemma BackUp(k: Kind, children: Dies, after: seq<Token>, s: State, inner: State) returns (t: State)
    requires s.stack != [] && Scanned(children, Step(s, k, true), inner)
    ensures ScannedOne(k, children, s, t) && Run([Null] + after, inner) == Run(after, t)
  {
    ChildrenSee(k, s);
    t := inner.(stack := Below(inner));
    assert ([Null] + after)[1..] == after;
    assert Below(t) == Below(s);
    assert Step(s, k, true).callers == s.callers + Here(k, Nearest(Below(s)));
  }

  lemma ThenSiblings(k: Kind, h: bool, children: Dies, rest: Dies, s: State, mid: State, t: State)
    requires ScannedOne(k, children, s, mid) && Scanned(rest, mid, t)
    ensures Scanned(Cons(k, h, children, rest), s, t)
  {
  }

  lemma NoChildren(k: Kind, s: State)
    requires s.stack != []
    ensures ScannedOne(k, Nil, s, Step(s, k, false))
  {
    assert Below(Step(s, k, false)) == Below(s);
  }

  // Siblings are scanned at one level of the stack.
  lemma {:induction false} RunSiblings(ds: Dies, after: seq<Token>, s: State) returns (t: State)
    requires s.stack != [] && ds.Ok()
    ensures Scanned(ds, s, t) && Run(Flatten(ds) + after, s) == Run(after, t)
    decreases ds, 0
  {
    match ds
    case Nil =>
      t := s;
      assert Flatten(ds) + after == after;
    case Cons(k, h, children, rest) =>
      var mid := RunOne(k, h, children, Flatten(rest) + after, s);
      assert Flatten(ds) + after == FlattenOne(k, h, children) + (Flatten(rest) + after);
      t := RunSiblings(rest, after, mid);
      ThenSiblings(k, h, children, rest, s, mid, t);
  }

  lemma {:induction false} RunOne(k: Kind, h: bool, children: Dies, after: seq<Token>, s: State) returns (t: State)
    requires s.stack != [] && children.Ok() && (!h ==> children == Nil)
    ensures ScannedOne(k, children, s, t) && Run(FlattenOne(k, h, children) + after, s) == Run(after, t)
    decreases children, 1
  {
    var tokens := FlattenOne(k, h, children) + after;
    if h {
      assert tokens[1..] == Flatten(children) + ([Null] + after);
      var inner := RunSiblings(children, [Null] + after, Step(s, k, true));
      t := BackUp(k, children, after, s, inner);
    } else {
      assert tokens[1..] == after;
      NoChildren(k, s);
      t := Step(s, k, false);
    }
  }

  // For every DIE tree the scan ends at its last null entry, with each inlined
  // subroutine's caller_func the nearest enclosing function DIE.
  lemma ScanFindsCallers(ds: Dies)
    requires ds.Ok()
    ensures Run(Flatten(ds) + [Null], State([NoCaller], [])) == Done(Callers(ds, NoCaller, 0))
  {
    var s := State([NoCaller], []);
    var t := RunSiblings(ds, [Null], s);
    assert Run([Null], t) == Done(t.callers);
  }

  // ---------- what the answer means ----------

  // A function DIE, with the numbers of those that it is nested in, outermost first.
  datatype Nested = Nested(kind: Kind, around: seq<nat>)
  {
    // An inlined subroutine is called from the innermost one; no other DIE has a caller.
    function Caller(): Caller {
      if kind.Inlined? && around != [] then From(around[|around| - 1]) else NoCaller
    }
  }

  // The function DIEs of a tree in preorder, of which the first one has number first.
  function FuncsIn(ds: Dies, around: seq<nat>, first: nat): seq<Nested>
    decreases ds, 0
  {
    match ds
    case Nil => []
    case Cons(k, _, children, rest) =>
      var own := FuncsOf(k, children, around, first);
      own + FuncsIn(rest, around, first + |own|)
  }

  // Those of one DIE and all that is below it.
  function FuncsOf(k: Kind, children: Dies, around: seq<nat>, first: nat): seq<Nested>
    decreases children, 1
  {
    if k.Other? then FuncsIn(children, around, first)
    else [Nested(k, around)] + FuncsIn(children, around + [first], first + 1)
  }

  function Innermost(around: seq<nat>): Caller {
    if around == [] then NoCaller else From(around[|around| - 1])
  }

  predicate AreCallers(cs: seq<Caller>, fs: seq<Nested>) {
    |cs| == |fs| && forall i {:trigger cs[i]} {:trigger fs[i]} :: 0 <= i < |cs| ==> cs[i] == fs[i].Caller()
  }

  lemma CallersJoin(cs: seq<Caller>, fs: seq<Nested>, ds: seq<Caller>, gs: seq<Nested>)
    requires AreCallers(cs, fs) && AreCallers(ds, gs)
    ensures AreCallers(cs + ds, fs + gs)
  {
  }

  // Each function DIE's entry is the innermost one around it if it is inlined, and none
  // otherwise.
  lemma {:induction false} CallersAreInnermost(ds: Dies, around: seq<nat>, first: nat)
    ensures AreCallers(Callers(ds, Innermost(around), first), FuncsIn(ds, around, first))
    decreases ds, 0
  {
    hide AreCallers, Innermost;
    match ds
    case Nil =>
      NoCallers();
    case Cons(k, _, children, rest) =>
      OwnAreInnermost(k, children, around, first);
      var own, fs := Own(k, children, Innermost(around), first), FuncsOf(k, children, around, first);
      SameCount(own, fs);
      CallersAreInnermost(rest, around, first + |own|);
      CallersJoin(own, fs, Callers(rest, Innermost(around), first + |own|), FuncsIn(rest, around, first + |own|));
  }

  lemma NoCallers()
    ensures AreCallers([], [])
  {
  }

  lemma SameCount(cs: seq<Caller>, fs: seq<Nested>)
    requires AreCallers(cs, fs)
    ensures |cs| == |fs|
  {
  }

  lemma {:induction false} OwnAreInnermost(k: Kind, children: Dies, around: seq<nat>, first: nat)
    ensures AreCallers(Own(k, children, Innermost(around), first), FuncsOf(k, children, around, first))
    decreases children, 1
  {
    hide Callers, FuncsIn;
    if k.Other? {
      CallersAreInnermost(children, around, first);
    } else {
      CallersAreInnermost(children, around + [first], first + 1);
      assert Innermost(around + [first]) == From(first);
      CallersJoin(Here(k, Innermost(around)), [Nested(k, around)], Callers(children, From(first), first + 1),
                  FuncsIn(children, around + [first], first + 1));
    }
  }

  // ---------- the scan itself ----------

  class NestedFunc {
    const kind: Kind
    const prevFunc: NestedFunc?
    const callerFunc: NestedFunc?

    constructor (kind: Kind, prevFunc: NestedFunc?, callerFunc: NestedFunc?)
      ensures this.kind == kind && this.prevFunc == prevFunc && this.callerFunc == callerFunc
    {
      this.kind, this.prevFunc, this.callerFunc := kind, prevFunc, callerFunc;
    }
  }

  // The function that a number stands for.
  predicate Means(made: seq<NestedFunc>, c: Caller, f: NestedFunc?) {
    if c.From? then c.func < |made| && f == made[c.func] else f == null
  }

  // made are the functions of the table, oldest first, with these callers.
  ghost predicate Table(made: seq<NestedFunc>, first: NestedFunc?, callers: seq<Caller>) {
    && |made| == |callers| && first == (if made == [] then null else made[|made| - 1])
    && (forall i {:trigger Before(made, i)} :: 0 <= i < |made| ==>
          Means(made, callers[i], made[i].callerFunc) && made[i].prevFunc == Before(made, i))
  }

  function Before(made: seq<NestedFunc>, i: nat): NestedFunc?
    requires i < |made|
  {
    if i == 0 then null else made[i - 1]
  }

  // The slots of the stack up to the nesting level.
  ghost predicate Slots(made: seq<NestedFunc>, a: array<NestedFunc?>, stack: seq<Caller>)
    reads a
  {
    |stack| <= a.Length && forall i {:trigger stack[i]} :: 0 <= i < |stack| ==> Means(made, stack[i], a[i])
  }

  // `for (i = nesting_level; i-- != 0; )`
  method FindCaller(a: array<NestedFunc?>, level: nat, ghost made: seq<NestedFunc>, ghost below: seq<Caller>)
    returns (f: NestedFunc?)
    requires |below| == level && Slots(made, a, below)
    ensures Means(made, Nearest(below), f)
  {
    var i := level;
    f := null;
    assert below[..level] == below;
    while i != 0
      invariant 0 <= i <= level && Nearest(below[..i]) == Nearest(below)
    {
      i := i - 1;
      assert below[..i + 1][..i] == below[..i] && Means(made, below[i], a[i]);
      if a[i] != null {
        return a[i];
      }
    }
  }

  // The stack, twice as long.
  method Double(a: array<NestedFunc?>) returns (b: array<NestedFunc?>)
    ensures fresh(b) && b.Length == 2 * a.Length && forall i :: 0 <= i < a.Length ==> b[i] == a[i]
  {
    b := new NestedFunc?[2 * a.Length](_ => null);
    for i := 0 to a.Length
      invariant forall j :: 0 <= j < i ==> b[j] == a[j]
    {
      b[i] := a[i];
    }
  }

  lemma MoreFunctions(made: seq<NestedFunc>, f: NestedFunc, callers: seq<Caller>, first: NestedFunc?, c: Caller)
    requires Table(made, first, callers) && Means(made, c, f.callerFunc) && f.prevFunc == first
    ensures Table(made + [f], f, callers + [c])
  {
    var m, cs := made + [f], callers + [c];
    forall i | 0 <= i < |m| ensures Means(m, cs[i], m[i].callerFunc) && m[i].prevFunc == Before(m, i) {
      if i < |made| {
        assert made[i].prevFunc == Before(made, i) && Means(made, callers[i], made[i].callerFunc);
      }
    }
  }

  // One function DIE: a new entry of the table, with its caller.
  method AddFunction(a: array<NestedFunc?>, level: nat, kind: Kind, table: NestedFunc?,
                     ghost made: seq<NestedFunc>, ghost s: State)
    returns (f: NestedFunc)
    requires |s.stack| == level + 1 && Slots(made, a, s.stack) && Table(made, table, s.callers) && !kind.Other?
    ensures Table(made + [f], f, s.callers + Here(kind, Nearest(s.stack[..level])))
  {
    var caller: NestedFunc? := null;
    ghost var c := NoCaller;
    if kind.Inlined? {
      caller := FindCaller(a, level, made, s.stack[..level]);
      c := Nearest(s.stack[..level]);
    }
    f := new NestedFunc(kind, table, caller);
    MoreFunctions(made, f, s.callers, table, c);
  }

  // A DIE's own slot of the stack.
  method VisitDie(a: array<NestedFunc?>, level: nat, kind: Kind, table: NestedFunc?,
                  ghost made: seq<NestedFunc>, ghost s: State)
    returns (table': NestedFunc?, ghost made': seq<NestedFunc>)
    requires |s.stack| == level + 1 && Slots(made, a, s.stack) && Table(made, table, s.callers)
    modifies a
    ensures var t := Step(s, kind, false); Slots(made', a, t.stack) && Table(made', table', t.callers)
  {
    table', made' := table, made;
    if !kind.Other? {
      table' := AddFunction(a, level, kind, table, made, s);
      made' := made + [table'];
      a[level] := table';
      assert Step(s, kind, false).callers == s.callers + Here(kind, Nearest(s.stack[..level]));
    } else {
      a[level] := null;
      assert Step(s, kind, false).callers == s.callers;
    }
  }

  // "nesting_level++", with the stack made longer if it has to be.
  method Descend(a: array<NestedFunc?>, level: nat, ghost made: seq<NestedFunc>, ghost stack: seq<Caller>)
    returns (b: array<NestedFunc?>)
    requires |stack| == level && Slots(made, a, stack) && a.Length > 0
    modifies a
    ensures (b == a || fresh(b)) && Slots(made, b, stack + [NoCaller])
  {
    b := a;
    if level >= a.Length {
      b := Double(a);
    }
    b[level] := null;
  }

  // scan_unit_for_symbols, as far as functions and nesting go.
  method ScanUnit(tokens: seq<Token>) returns (ok: bool, table: NestedFunc?, ghost made: seq<NestedFunc>)
    ensures var r := Run(tokens, State([NoCaller], []));
            && ok == r.Done?
            && (ok ==> Table(made, table, r.callers))
  {
    var a := new NestedFunc?[32](_ => null);
    var level, p := 0, 0;
    table, made := null, [];
    ghost var s := State([NoCaller], []);
    ghost var goal := Run(tokens, s);
    while level >= 0
      invariant fresh(a) && 0 <= p <= |tokens| && |s.stack| == level + 1
      invariant Slots(made, a, s.stack) && Table(made, table, s.callers)
      invariant Run(tokens[p..], s) == goal
      decreases |tokens| - p
    {
      if p >= |tokens| || tokens[p].Unknown? {
        return false, table, made;
      }
      var token := tokens[p];
      assert tokens[p..][1..] == tokens[p + 1..];
      p := p + 1;
      if token.Null? {
        level := level - 1;
        s := s.(stack := Below(s));
      } else {
        ghost var t := Step(s, token.kind, false);
        table, made := VisitDie(a, level, token.kind, table, made, s);
        if token.hasChildren {
          level := level + 1;
          a := Descend(a, level, made, t.stack);
          assert Step(s, token.kind, true).stack == t.stack + [NoCaller];
        }
        s := Step(s, token.kind, token.hasChildren);
      }
    }
    ok := true;
  }
}
