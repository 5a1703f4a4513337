/** The binding model: what one annotated field or click method asks for, and
    the per-id aggregate `ViewInjection` that `TargetClass` keeps. The Java
    classes behind these values are not part of this model; their shape is the
    one `TargetClass` relies on. */
module Bindings {
  import opened JavaLang

  /** `@InjectView(id) <viewType> <name>`, optional when `required` is false. */
  datatype FieldBinding = FieldBinding(name: string, viewType: string, required: bool)

  /** `@OnClick(id) void <name>(<viewType> view)`; a `None` type is a click
      method that takes no argument. */
  datatype MethodBinding = MethodBinding(name: string, viewType: Option<string>, required: bool)

  /** Either kind, as it appears in the list of required bindings. */
  datatype Binding = Field(fieldBinding: FieldBinding) | Method(methodBinding: MethodBinding)

  predicate IsRequired(b: Binding) {
    match b
    case Field(f) => f.required
    case Method(m) => m.required
  }

  /** The text used for a binding in the "Required view ... was not found"
      message, such as `field 'thing'`. */
  function Description(b: Binding): string {
    match b
    case Field(f) => "field '" + f.name + "'"
    case Method(m) => "method '" + m.name + "'"
  }

  /** Everything bound to one view id: its field bindings in the order they
      were added, and at most one click method. */
  datatype ViewInjection = ViewInjection(
    id: JavaInt,
    fieldBindings: seq<FieldBinding>,
    methodBinding: Option<MethodBinding>)

  /** `new ViewInjection(id)`: nothing bound yet. */
  function NewViewInjection(id: JavaInt): ViewInjection {
    ViewInjection(id, [], None)
  }

  /** `addFieldBinding`: appends; it cannot fail. */
  function AddFieldBinding(v: ViewInjection, f: FieldBinding): ViewInjection {
    v.(fieldBindings := v.fieldBindings + [f])
  }

  /** `addMethodBinding`: `None` stands for the `IllegalStateException` thrown
      when the id already has a click method; the existing one is kept. */
  function AddMethodBinding(v: ViewInjection, m: MethodBinding): (r: Option<ViewInjection>)
    ensures r.None? <==> v.methodBinding.Some?
    ensures r.Some? ==> r.value.id == v.id && r.value.fieldBindings == v.fieldBindings
                        && r.value.methodBinding == Some(m)
  {
    if v.methodBinding.Some? then None else Some(v.(methodBinding := Some(m)))
  }

  /** The required field bindings, in the order they were added. */
  function RequiredFields(fs: seq<FieldBinding>): (r: seq<Binding>)
    ensures forall b :: b in r ==> b.Field? && IsRequired(b)
    ensures forall f :: Field(f) in r <==> f in fs && f.required
    ensures |r| <= |fs|
  {
    if fs == [] then []
    else
      var last := fs[|fs| - 1];
      assert fs == fs[..|fs| - 1] + [last];
      RequiredFields(fs[..|fs| - 1]) + (if last.required then [Field(last)] else [])
  }

  /** A single field binding contributes itself exactly when it is required. */
  lemma RequiredFieldsOne(f: FieldBinding)
    ensures RequiredFields([f]) == if f.required then [Field(f)] else []
  {
    assert [f][..0] == [];
  }

  /** Filtering keeps the order: the required fields of `a + b` are those of
      `a` followed by those of `b`, each as often as it was added. */
  lemma {:induction false} RequiredFieldsConcat(a: seq<FieldBinding>, b: seq<FieldBinding>)
    ensures RequiredFields(a + b) == RequiredFields(a) + RequiredFields(b)
    decreases |b|
  {
    if b == [] {
      assert a + b == a;
    } else {
      var init := b[..|b| - 1];
      var last := b[|b| - 1];
      var tail := if last.required then [Field(last)] else [];
      assert (a + b)[..|a + b| - 1] == a + init;
      assert RequiredFields(a + b) == RequiredFields(a + init) + tail;
      assert RequiredFields(b) == RequiredFields(init) + tail;
      RequiredFieldsConcat(a, init);
    }
  }

  /** `getRequiredBindings`: the required fields first, then the click method
      when it is required. */
  function RequiredBindings(v: ViewInjection): (r: seq<Binding>)
    ensures |RequiredFields(v.fieldBindings)| <= |r| <= |RequiredFields(v.fieldBindings)| + 1
    ensures r[..|RequiredFields(v.fieldBindings)|] == RequiredFields(v.fieldBindings)
    ensures |r| == |RequiredFields(v.fieldBindings)| + 1 <==> v.methodBinding.Some? && v.methodBinding.value.required
    ensures |r| == |RequiredFields(v.fieldBindings)| + 1 ==> r[|r| - 1] == Method(v.methodBinding.value)
    ensures forall b :: b in r ==> IsRequired(b)
    ensures forall f :: Field(f) in r <==> f in v.fieldBindings && f.required
    ensures forall m :: Method(m) in r <==> v.methodBinding == Some(m) && m.required
    ensures forall i, j :: 0 <= i < j < |r| && r[i].Method? ==> !r[j].Field?
    ensures r == [] <==>
      (forall f :: f in v.fieldBindings ==> !f.required)
      && !(v.methodBinding.Some? && v.methodBinding.value.required)
  {
    var fields := RequiredFields(v.fieldBindings);
    var tail := if v.methodBinding.Some? && v.methodBinding.value.required
                then [Method(v.methodBinding.value)] else [];
    assert forall i :: 0 <= i < |fields| ==> fields[i] in fields;
    assert fields != [] ==> Field(fields[0].fieldBinding) in fields;
    fields + tail
  }
}
