/** What the generated `inject` and `reset` methods are promised to contain,
    proved about the statements the render phase emits. */
module RenderProperties {
  import opened JavaLang
  import opened Bindings
  import opened ViewIdMap
  import opened Render

  // ---------------------------------------------------------------------
  // Projections of a statement sequence

  /** The ids looked up, in order: one per `findById` statement. */
  function Lookups(ss: seq<Statement>): seq<JavaInt> {
    if ss == [] then []
    else Lookups(ss[..|ss| - 1]) + (match ss[|ss| - 1] case FindView(id) => [id] case _ => [])
  }

  /** The target fields assigned a view, in order. */
  function Assigned(ss: seq<Statement>): seq<string> {
    if ss == [] then []
    else Assigned(ss[..|ss| - 1]) + (match ss[|ss| - 1] case AssignField(n, _) => [n] case _ => [])
  }

  /** The target fields set back to null, in order. */
  function Cleared(ss: seq<Statement>): seq<string> {
    if ss == [] then []
    else Cleared(ss[..|ss| - 1]) + (match ss[|ss| - 1] case ClearField(n) => [n] case _ => [])
  }

  /** The parent injectors delegated to, in order. */
  function Delegations(ss: seq<Statement>): seq<string> {
    if ss == [] then []
    else Delegations(ss[..|ss| - 1]) + (match ss[|ss| - 1]
      case CallParentInject(p) => [p]
      case CallParentReset(p) => [p]
      case _ => [])
  }

  lemma DropLastOfAppend(a: seq<Statement>, b: seq<Statement>)
    requires b != []
    ensures (a + b)[..|a + b| - 1] == a + b[..|b| - 1]
    ensures (a + b)[|a + b| - 1] == b[|b| - 1]
  {
  }

  lemma {:induction false} LookupsAppend(a: seq<Statement>, b: seq<Statement>)
    ensures Lookups(a + b) == Lookups(a) + Lookups(b)
    decreases |b|
  {
    if b == [] {
      assert a + b == a;
    } else {
      DropLastOfAppend(a, b);
      LookupsAppend(a, b[..|b| - 1]);
    }
  }

  lemma {:induction false} AssignedAppend(a: seq<Statement>, b: seq<Statement>)
    ensures Assigned(a + b) == Assigned(a) + Assigned(b)
    decreases |b|
  {
    if b == [] {
      assert a + b == a;
    } else {
      DropLastOfAppend(a, b);
      AssignedAppend(a, b[..|b| - 1]);
    }
  }

  lemma {:induction false} ClearedAppend(a: seq<Statement>, b: seq<Statement>)
    ensures Cleared(a + b) == Cleared(a) + Cleared(b)
    decreases |b|
  {
    if b == [] {
      assert a + b == a;
    } else {
      DropLastOfAppend(a, b);
      ClearedAppend(a, b[..|b| - 1]);
    }
  }

  lemma {:induction false} DelegationsAppend(a: seq<Statement>, b: seq<Statement>)
    ensures Delegations(a + b) == Delegations(a) + Delegations(b)
    decreases |b|
  {
    if b == [] {
      assert a + b == a;
    } else {
      DropLastOfAppend(a, b);
      DelegationsAppend(a, b[..|b| - 1]);
    }
  }

  /** Each projection of a concatenation is the concatenation of the
      projections. */
  lemma ProjectionsAppend(a: seq<Statement>, b: seq<Statement>)
    ensures Lookups(a + b) == Lookups(a) + Lookups(b)
    ensures Assigned(a + b) == Assigned(a) + Assigned(b)
    ensures Cleared(a + b) == Cleared(a) + Cleared(b)
    ensures Delegations(a + b) == Delegations(a) + Delegations(b)
  {
    LookupsAppend(a, b);
    AssignedAppend(a, b);
    ClearedAppend(a, b);
    DelegationsAppend(a, b);
  }

  /** The names of the field bindings, in order. */
  function Names(fs: seq<FieldBinding>): (ns: seq<string>)
    ensures |ns| == |fs|
    ensures forall i :: 0 <= i < |fs| ==> ns[i] == fs[i].name
  {
    seq(|fs|, i requires 0 <= i < |fs| => fs[i].name)
  }

  /** Every field binding of the class, id by id and, within an id, in the
      order the fields were added. */
  function FieldNames(es: Entries): seq<string> {
    if es == [] then [] else FieldNames(es[..|es| - 1]) + Names(es[|es| - 1].fieldBindings)
  }

  lemma {:induction false} FieldStatementsProjections(fs: seq<FieldBinding>)
    ensures Lookups(FieldStatements(fs)) == []
    ensures Assigned(FieldStatements(fs)) == Names(fs)
    ensures Cleared(FieldStatements(fs)) == []
    ensures Delegations(FieldStatements(fs)) == []
  {
    if fs != [] {
      var n := |fs|;
      FieldStatementsProjections(fs[..n - 1]);
      assert FieldStatements(fs)[..n - 1] == FieldStatements(fs[..n - 1]);
      assert Names(fs) == Names(fs[..n - 1]) + [fs[n - 1].name];
    }
  }

  /** What the projections see of a single statement. */
  lemma Single(s: Statement)
    ensures Lookups([s]) == if s.FindView? then [s.id] else []
    ensures Assigned([s]) == if s.AssignField? then [s.name] else []
    ensures Cleared([s]) == if s.ClearField? then [s.name] else []
    ensures Delegations([s]) == if s.CallParentInject? || s.CallParentReset? then [s.parent] else []
  {
    assert [s][..0] == [];
  }

  // ---------------------------------------------------------------------
  // One id's block

  lemma NullCheckProjections(v: ViewInjection)
    ensures var check := NullCheckStatements(v);
      Lookups(check) == [] && Assigned(check) == [] && Cleared(check) == [] && Delegations(check) == []
  {
    var required := RequiredBindings(v);
    if required != [] {
      Single(RequireView(v.id, required));
    }
  }

  lemma MethodProjections(v: ViewInjection)
    ensures var click := MethodStatements(v);
      Lookups(click) == [] && Assigned(click) == [] && Cleared(click) == [] && Delegations(click) == []
  {
    if v.methodBinding.Some? {
      Single(SetClickListener(v.methodBinding.value, RequiredBindings(v) == []));
    }
  }

  lemma BlockTailProjections(v: ViewInjection)
    ensures var tail := NullCheckStatements(v) + FieldStatements(v.fieldBindings) + MethodStatements(v);
      Lookups(tail) == [] && Assigned(tail) == Names(v.fieldBindings) && Cleared(tail) == []
      && Delegations(tail) == []
  {
    var check := NullCheckStatements(v);
    var fields := FieldStatements(v.fieldBindings);
    var click := MethodStatements(v);
    FieldStatementsProjections(v.fieldBindings);
    NullCheckProjections(v);
    ProjectionsAppend(check, fields);
    var head := check + fields;
    assert Lookups(head) == [] && Cleared(head) == [] && Delegations(head) == [];
    assert Assigned(head) == [] + Names(v.fieldBindings) == Names(v.fieldBindings);
    MethodProjections(v);
    ProjectionsAppend(head, click);
    assert Assigned(head + click) == Names(v.fieldBindings) + [] == Names(v.fieldBindings);
  }

  /** An id's block starts with its one lookup, and the assignments in it are
      its field bindings, one each, in the order they were added. */
  lemma OneLookupPerBlock(v: ViewInjection)
    ensures InjectionStatements(v)[0] == FindView(v.id)
    ensures Lookups(InjectionStatements(v)) == [v.id]
    ensures Assigned(InjectionStatements(v)) == Names(v.fieldBindings)
    ensures Cleared(InjectionStatements(v)) == []
    ensures Delegations(InjectionStatements(v)) == []
  {
    var tail := NullCheckStatements(v) + FieldStatements(v.fieldBindings) + MethodStatements(v);
    assert InjectionStatements(v) == [FindView(v.id)] + tail;
    BlockTailProjections(v);
    Single(FindView(v.id));
    ProjectionsAppend([FindView(v.id)], tail);
  }

  /** The null check is emitted exactly when the id has a required binding,
      right after the lookup, and its message lists exactly the required
      bindings. */
  lemma NullCheckIffRequired(v: ViewInjection)
    ensures (exists s :: s in InjectionStatements(v) && s.RequireView?) <==> RequiredBindings(v) != []
    ensures forall s :: s in InjectionStatements(v) && s.RequireView? ==>
      s == RequireView(v.id, RequiredBindings(v))
    ensures RequiredBindings(v) != [] ==> InjectionStatements(v)[1] == RequireView(v.id, RequiredBindings(v))
  {
    var required := RequiredBindings(v);
    var block := InjectionStatements(v);
    var check := NullCheckStatements(v);
    var rest := FieldStatements(v.fieldBindings) + MethodStatements(v);
    assert forall s :: s in rest ==> s.AssignField? || s.SetClickListener?;
    assert block == [FindView(v.id)] + check + rest;
    assert forall s :: s in block && s.RequireView? ==> s in check;
    if required != [] {
      assert block[1] == RequireView(v.id, required);
    }
  }

  /** A click listener is emitted exactly when the id has a click method; it is
      wrapped in a null guard exactly when nothing on the id is required. */
  lemma ClickListenerGuard(v: ViewInjection)
    ensures (exists s :: s in InjectionStatements(v) && s.SetClickListener?) <==> v.methodBinding.Some?
    ensures forall s :: s in InjectionStatements(v) && s.SetClickListener? ==>
      Some(s.click) == v.methodBinding && (s.guarded <==> RequiredBindings(v) == [])
  {
    var check := NullCheckStatements(v);
    var fields := FieldStatements(v.fieldBindings);
    var click := MethodStatements(v);
    var head := [FindView(v.id)] + check + fields;
    assert InjectionStatements(v) == head + click;
    assert forall s :: s in check ==> s.RequireView?;
    assert forall s :: s in head ==> !s.SetClickListener?;
    assert forall s :: s in click ==> s == SetClickListener(v.methodBinding.value, RequiredBindings(v) == []);
    if v.methodBinding.Some? {
      assert click[0] in head + click;
    }
  }

  // ---------------------------------------------------------------------
  // The whole generated `inject` and `reset`

  lemma {:induction false} AllInjectionProjections(es: Entries)
    ensures Lookups(AllInjectionStatements(es)) == Ids(es)
    ensures Assigned(AllInjectionStatements(es)) == FieldNames(es)
    ensures Cleared(AllInjectionStatements(es)) == []
    ensures Delegations(AllInjectionStatements(es)) == []
  {
    if es != [] {
      var n := |es|;
      var prefix, last := es[..n - 1], es[n - 1];
      AllInjectionProjections(prefix);
      OneLookupPerBlock(last);
      var a, b := AllInjectionStatements(prefix), InjectionStatements(last);
      assert AllInjectionStatements(es) == a + b;
      ProjectionsAppend(a, b);
      assert Lookups(a + b) == Ids(prefix) + [last.id];
      assert Ids(es) == Ids(prefix) + [last.id];
      assert Assigned(a + b) == FieldNames(prefix) + Names(last.fieldBindings);
      assert FieldNames(es) == FieldNames(prefix) + Names(last.fieldBindings);
    }
  }

  lemma InjectHeadProjections(parent: Option<string>)
    ensures var head := (match parent case None => [] case Some(p) => [CallParentInject(p)]) + [DeclareView];
      Lookups(head) == [] && Assigned(head) == [] && Cleared(head) == []
      && Delegations(head) == (match parent case None => [] case Some(p) => [p])
  {
    var pre: seq<Statement> := match parent case None => [] case Some(p) => [CallParentInject(p)];
    if parent.Some? { Single(CallParentInject(parent.value)); }
    Single(DeclareView);
    ProjectionsAppend(pre, [DeclareView]);
  }

  /** One lookup per id: `inject` calls `findById` once for each bound id, in
      the order the ids were first bound. */
  lemma InjectLookupsInIdOrder(parent: Option<string>, es: Entries)
    ensures Lookups(InjectStatements(parent, es)) == Ids(es)
  {
    var head := (match parent case None => [] case Some(p) => [CallParentInject(p)]) + [DeclareView];
    InjectHeadProjections(parent);
    AllInjectionProjections(es);
    ProjectionsAppend(head, AllInjectionStatements(es));
  }

  lemma {:induction false} DistinctCount(xs: seq<JavaInt>, x: JavaInt)
    requires Distinct(xs)
    ensures multiset(xs)[x] == if x in xs then 1 else 0
  {
    if xs != [] {
      var n := |xs|;
      DistinctCount(xs[..n - 1], x);
      assert xs == xs[..n - 1] + [xs[n - 1]];
    }
  }

  /** In a well-formed map every id is looked up exactly once and no other id
      is looked up at all. */
  lemma InjectLookupOncePerId(parent: Option<string>, es: Entries, id: JavaInt)
    requires DistinctIds(es)
    ensures multiset(Lookups(InjectStatements(parent, es)))[id] == if id in Ids(es) then 1 else 0
  {
    InjectLookupsInIdOrder(parent, es);
    DistinctCount(Ids(es), id);
  }

  /** `inject` assigns every field binding of this class once, id by id and in
      the order the fields were added. */
  lemma InjectAssignsEveryField(parent: Option<string>, es: Entries)
    ensures Assigned(InjectStatements(parent, es)) == FieldNames(es)
    ensures Cleared(InjectStatements(parent, es)) == []
  {
    var head := (match parent case None => [] case Some(p) => [CallParentInject(p)]) + [DeclareView];
    InjectHeadProjections(parent);
    AllInjectionProjections(es);
    ProjectionsAppend(head, AllInjectionStatements(es));
  }

  /** The clearing assignments of `reset` for the given field names. */
  function ClearAll(names: seq<string>): (ss: seq<Statement>)
    ensures |ss| == |names|
    ensures forall i :: 0 <= i < |names| ==> ss[i] == ClearField(names[i])
  {
    seq(|names|, i requires 0 <= i < |names| => ClearField(names[i]))
  }

  lemma {:induction false} ClearAllProjections(names: seq<string>)
    ensures Cleared(ClearAll(names)) == names
    ensures Delegations(ClearAll(names)) == []
  {
    if names != [] {
      var n := |names|;
      ClearAllProjections(names[..n - 1]);
      assert ClearAll(names) == ClearAll(names[..n - 1]) + [ClearField(names[n - 1])];
      Single(ClearField(names[n - 1]));
      ProjectionsAppend(ClearAll(names[..n - 1]), [ClearField(names[n - 1])]);
      assert names == names[..n - 1] + [names[n - 1]];
    }
  }

  lemma {:induction false} AllClearIsClearAll(es: Entries)
    ensures AllClearStatements(es) == ClearAll(FieldNames(es))
  {
    if es != [] {
      var n := |es|;
      AllClearIsClearAll(es[..n - 1]);
    }
  }

  /** `reset` is the parent's `reset` (if any) and then one `= null` per field
      binding of this class, in the order `inject` assigns them; click methods
      contribute nothing. */
  lemma ResetMirrorsInject(parent: Option<string>, es: Entries)
    ensures ResetStatements(parent, es) ==
      (match parent case None => [] case Some(p) => [CallParentReset(p)]) + ClearAll(Assigned(InjectStatements(parent, es)))
    ensures Cleared(ResetStatements(parent, es)) == Assigned(InjectStatements(parent, es))
  {
    AllClearIsClearAll(es);
    InjectAssignsEveryField(parent, es);
    ClearAllProjections(FieldNames(es));
    var pre: seq<Statement> := match parent case None => [] case Some(p) => [CallParentReset(p)];
    if parent.Some? { Single(CallParentReset(parent.value)); }
    ProjectionsAppend(pre, AllClearStatements(es));
  }

  /** With a parent injector, `inject` and `reset` each begin by delegating to
      it and delegate nowhere else; without one, neither delegates at all. */
  lemma ParentCallsComeFirst(parent: Option<string>, es: Entries)
    ensures parent.Some? ==> InjectStatements(parent, es)[0] == CallParentInject(parent.value)
    ensures parent.Some? ==> ResetStatements(parent, es)[0] == CallParentReset(parent.value)
    ensures Delegations(InjectStatements(parent, es)) == match parent case None => [] case Some(p) => [p]
    ensures Delegations(ResetStatements(parent, es)) == match parent case None => [] case Some(p) => [p]
  {
    var head := (match parent case None => [] case Some(p) => [CallParentInject(p)]) + [DeclareView];
    InjectHeadProjections(parent);
    AllInjectionProjections(es);
    ProjectionsAppend(head, AllInjectionStatements(es));
    AllClearIsClearAll(es);
    ClearAllProjections(FieldNames(es));
    var pre: seq<Statement> := match parent case None => [] case Some(p) => [CallParentReset(p)];
    if parent.Some? { Single(CallParentReset(parent.value)); }
    ProjectionsAppend(pre, AllClearStatements(es));
  }

  /** From the annotated members to the generated `inject`: whatever the order
      of the `addField`/`addMethod` calls, `findById` is called once per bound
      id, in the order the ids were first bound. */
  lemma BuiltInjectLookups(parent: Option<string>, calls: seq<Call>)
    ensures Lookups(InjectStatements(parent, Replay(calls))) == FirstOccurrences(CallIds(calls))
  {
    ReplayOrder(calls);
    InjectLookupsInIdOrder(parent, Replay(calls));
  }
}
