/** The render phase of `TargetClass`, as pure functions: the exact text
    `brewJava` produces for a given state. The body of the generated `inject`
    and `reset` methods is described as a sequence of statements, each with the
    exact text it is written as, so that what is emitted (one lookup per id,
    the null check, the listener guard, the parent call) can be stated about
    the statements while the text stays byte-for-byte what the source appends. */
module Render {
  import opened JavaLang
  import opened Bindings
  import opened ViewIdMap

  /** `InjectViewProcessor.VIEW_TYPE`: a field or parameter of this type needs
      no cast. */
  const VIEW_TYPE: string := "android.view.View"

  /** The fixed fragments of the generated statements. */
  const INDENT: string := "    "
  const EXTRA_INDENT: string := "  "
  const PARENT_INJECT_CALL: string := ".inject(finder, target, source);\n\n"
  const PARENT_RESET_CALL: string := ".reset(target);\n\n"
  const DECLARE_VIEW: string := "    View view;\n"
  const FIND_VIEW_HEAD: string := "    view = finder.findById(source, "
  const CALL_END: string := ");\n"
  const NULL_CHECK_OPEN: string := "    if (view == null) {\n"
  const THROW_OPEN: string := "      throw new IllegalStateException(\""
  const THROW_CLOSE: string := "\");\n"
  const MESSAGE_HEAD: string := "Required view with id '"
  const MESSAGE_FOR: string := "' for "
  const MESSAGE_TAIL: string := " was not found. If this view is optional add '@Optional' annotation."
  const MISSING_VIEW_HEAD: string := THROW_OPEN + MESSAGE_HEAD
  const MISSING_VIEW_TAIL: string := MESSAGE_TAIL + THROW_CLOSE
  const BLOCK_CLOSE: string := "    }\n"
  const TARGET_FIELD: string := "    target."
  const ASSIGN: string := " = "
  const VIEW_END: string := "view;\n"
  const NULL_END: string := " = null;\n"
  const NULL_GUARD_OPEN: string := "    if (view != null) {\n  "
  const LISTENER_OPEN: string := "    view.setOnClickListener(new View.OnClickListener() {\n"
  const ON_CLICK_OPEN: string := "      @Override public void onClick(View view) {\n"
  const ON_CLICK_CALL: string := "        target."
  const ON_CLICK_CLOSE: string := "      }\n"
  const LISTENER_CLOSE: string := "    });\n"

  /** The text after `emitCastIfNeeded(builder, viewType)` on a builder
      holding `text`: `(<type>) ` is appended unless the type is `View`. */
  function AppendCastIfNeeded(text: string, viewType: string): (r: string)
    ensures |r| >= |text| && r[..|text|] == text
    ensures r == text <==> viewType == VIEW_TYPE
    ensures r != text ==> r[|text|..] == "(" + viewType + ") "
  {
    if VIEW_TYPE != viewType then text + "(" + viewType + ") " else text
  }

  /** The argument written into the generated `onClick` call: nothing for a
      click method without a parameter, otherwise the view, cast when the
      parameter's type is not `View`. */
  function AppendClickArgument(text: string, m: MethodBinding): (r: string)
    ensures m.viewType.None? ==> r == text
    ensures m.viewType == Some(VIEW_TYPE) ==> r == text + "view"
    ensures m.viewType.Some? && m.viewType.value != VIEW_TYPE ==>
      r == text + "(" + m.viewType.value + ") " + "view"
  {
    match m.viewType
    case None => text
    case Some(t) => AppendCastIfNeeded(text, t) + "view"
  }

  // ---------------------------------------------------------------------
  // humanDescriptionJoin

  /** The descriptions of the bindings, in order. */
  function Descriptions(bs: seq<Binding>): (ds: seq<string>)
    ensures |ds| == |bs|
    ensures forall i :: 0 <= i < |bs| ==> ds[i] == Description(bs[i])
  {
    seq(|bs|, i requires 0 <= i < |bs| => Description(bs[i]))
  }

  /** The reference: items separated by ", ". */
  function CommaJoin(items: seq<string>): string {
    if items == [] then ""
    else if |items| == 1 then items[0]
    else CommaJoin(items[..|items| - 1]) + ", " + items[|items| - 1]
  }

  /** The text the default branch's loop has built after its first `k`
      rounds: round `i` appends ", " unless it is the first, "and " if it is
      the last, then the description. */
  function JoinPrefix(bs: seq<Binding>, k: nat): string
    requires k <= |bs|
  {
    if k == 0 then ""
    else
      var i := k - 1;
      var text := JoinPrefix(bs, i);
      var separated := if i != 0 then text + ", " else text;
      var conjoined := if i == |bs| - 1 then separated + "and " else separated;
      conjoined + Description(bs[i])
  }

  /** `humanDescriptionJoin`, specified: one item alone, two joined by
      " and ", more by the default branch's loop. */
  function DescriptionJoin(bs: seq<Binding>): string {
    if |bs| == 1 then Description(bs[0])
    else if |bs| == 2 then Description(bs[0]) + " and " + Description(bs[1])
    else JoinPrefix(bs, |bs|)
  }

  /** Before the last round the loop has built the plain comma list. */
  lemma {:induction false} JoinPrefixIsCommaJoin(bs: seq<Binding>, k: nat)
    requires 1 <= k < |bs|
    ensures JoinPrefix(bs, k) == CommaJoin(Descriptions(bs[..k]))
  {
    if k > 1 {
      JoinPrefixIsCommaJoin(bs, k - 1);
      assert Descriptions(bs[..k])[..k - 1] == Descriptions(bs[..k - 1]);
    } else {
      assert JoinPrefix(bs, 0) == "";
      assert "" + Description(bs[0]) == Description(bs[0]);
    }
  }

  /** The join grammar: `A`, `A and B`, and `A, B, ..., and Z` for three or
      more: the first items joined by ", ", then ", and " and the last. */
  lemma JoinGrammar(bs: seq<Binding>)
    ensures |bs| == 1 ==> DescriptionJoin(bs) == Description(bs[0])
    ensures |bs| == 2 ==> DescriptionJoin(bs) == Description(bs[0]) + " and " + Description(bs[1])
    ensures |bs| >= 3 ==>
      DescriptionJoin(bs) == CommaJoin(Descriptions(bs[..|bs| - 1])) + ", " + "and " + Description(bs[|bs| - 1])
  {
    if |bs| >= 3 {
      JoinPrefixIsCommaJoin(bs, |bs| - 1);
    }
  }

  // ---------------------------------------------------------------------
  // The statements of the generated methods

  /** One statement of the generated `inject` or `reset` method. */
  datatype Statement =
    | CallParentInject(parent: string)           // <parent>.inject(finder, target, source);
    | DeclareView                                // View view;
    | FindView(id: JavaInt)                      // view = finder.findById(source, <id>);
    | RequireView(id: JavaInt, required: seq<Binding>)  // if (view == null) throw ...
    | AssignField(name: string, viewType: string)       // target.<name> = <cast>view;
    | SetClickListener(click: MethodBinding, guarded: bool)
    | CallParentReset(parent: string)            // <parent>.reset(target);
    | ClearField(name: string)                   // target.<name> = null;

  /** The lines registering the click listener, each indented by `indent`
      beyond the method body's own indentation. */
  function AppendListenerLines(text: string, m: MethodBinding, indent: string): string {
    var call := text
      + indent + LISTENER_OPEN
      + indent + ON_CLICK_OPEN
      + indent + ON_CLICK_CALL + m.name + "(";
    AppendClickArgument(call, m) + CALL_END
      + indent + ON_CLICK_CLOSE
      + indent + LISTENER_CLOSE
  }

  /** The click listener appended by `emitMethodBindings`: a guarded one sits
      inside `if (view != null) { ... }` with every line indented two more
      spaces (the guard's own text ends with two spaces, so its first line gets
      four); an unguarded one is the bare lines. */
  function AppendClickListener(text: string, m: MethodBinding, guarded: bool): string {
    if guarded then AppendListenerLines(text + NULL_GUARD_OPEN, m, EXTRA_INDENT) + BLOCK_CLOSE
    else AppendListenerLines(text, m, "")
  }

  /** The text after appending one statement to a builder holding `text`. */
  function AppendStatement(text: string, s: Statement): string {
    match s
    case CallParentInject(p) => text + INDENT + p + PARENT_INJECT_CALL
    case DeclareView => text + DECLARE_VIEW
    case FindView(id) => text + FIND_VIEW_HEAD + IntToString(id) + CALL_END
    case RequireView(id, required) =>
      text + NULL_CHECK_OPEN + MISSING_VIEW_HEAD + IntToString(id)
        + MESSAGE_FOR + DescriptionJoin(required) + MISSING_VIEW_TAIL + BLOCK_CLOSE
    case AssignField(name, viewType) =>
      AppendCastIfNeeded(text + TARGET_FIELD + name + ASSIGN, viewType) + VIEW_END
    case SetClickListener(m, guarded) => AppendClickListener(text, m, guarded)
    case CallParentReset(p) => text + INDENT + p + PARENT_RESET_CALL
    case ClearField(name) => text + TARGET_FIELD + name + NULL_END
  }

  /** The message of the exception thrown when a required view is missing. */
  function MissingViewMessage(id: JavaInt, required: seq<Binding>): string {
    MESSAGE_HEAD + IntToString(id) + MESSAGE_FOR + DescriptionJoin(required) + MESSAGE_TAIL
  }

  /** The null check throws an `IllegalStateException` whose message names the
      id and joins the descriptions of the required bindings. */
  lemma NullCheckMessage(text: string, id: JavaInt, required: seq<Binding>)
    ensures AppendStatement(text, RequireView(id, required))
         == text + NULL_CHECK_OPEN + THROW_OPEN + MissingViewMessage(id, required) + THROW_CLOSE + BLOCK_CLOSE
  {
    Regroup(text + NULL_CHECK_OPEN, THROW_OPEN, MESSAGE_HEAD, IntToString(id), MESSAGE_FOR,
            DescriptionJoin(required), MESSAGE_TAIL, THROW_CLOSE);
  }

  lemma Regroup(t: string, a: string, b: string, c: string, d: string, e: string, f: string, g: string)
    ensures t + (a + b) + c + d + e + (f + g) == t + a + (b + c + d + e + f) + g
  {
  }

  /** The text after appending the statements, in order. */
  function AppendStatements(text: string, ss: seq<Statement>): string {
    if ss == [] then text else AppendStatement(AppendStatements(text, ss[..|ss| - 1]), ss[|ss| - 1])
  }

  lemma {:induction false} AppendStatementsConcat(text: string, a: seq<Statement>, b: seq<Statement>)
    ensures AppendStatements(text, a + b) == AppendStatements(AppendStatements(text, a), b)
    decreases |b|
  {
    if b == [] {
      assert a + b == a;
    } else {
      var b' := b[..|b| - 1];
      assert (a + b)[..|a + b| - 1] == a + b';
      AppendStatementsConcat(text, a, b');
    }
  }

  lemma AppendStatementsOne(text: string, s: Statement)
    ensures AppendStatements(text, [s]) == AppendStatement(text, s)
  {
    assert [s][..0] == [];
  }

  /** `emitFieldBindings`: one assignment per field binding, in order. */
  function FieldStatements(fs: seq<FieldBinding>): (ss: seq<Statement>)
    ensures |ss| == |fs|
    ensures forall i :: 0 <= i < |fs| ==> ss[i] == AssignField(fs[i].name, fs[i].viewType)
    ensures forall s :: s in ss ==> s.AssignField?
  {
    seq(|fs|, i requires 0 <= i < |fs| => AssignField(fs[i].name, fs[i].viewType))
  }

  /** `emitMethodBindings`: the click listener, guarded exactly when the id has
      no required binding. */
  function MethodStatements(v: ViewInjection): seq<Statement> {
    match v.methodBinding
    case None => []
    case Some(m) => [SetClickListener(m, RequiredBindings(v) == [])]
  }

  /** The null check `emitViewInjection` emits when something on the id is
      required. */
  function NullCheckStatements(v: ViewInjection): seq<Statement> {
    var required := RequiredBindings(v);
    if required != [] then [RequireView(v.id, required)] else []
  }

  /** `emitViewInjection`: one lookup, the null check, the field assignments,
      then the click listener. */
  function InjectionStatements(v: ViewInjection): seq<Statement> {
    [FindView(v.id)] + NullCheckStatements(v) + FieldStatements(v.fieldBindings) + MethodStatements(v)
  }

  /** The per-id blocks of `inject`, in map order. */
  function AllInjectionStatements(es: Entries): seq<Statement> {
    if es == [] then []
    else AllInjectionStatements(es[..|es| - 1]) + InjectionStatements(es[|es| - 1])
  }

  /** The body of the generated `inject`. */
  function InjectStatements(parent: Option<string>, es: Entries): seq<Statement> {
    (match parent case None => [] case Some(p) => [CallParentInject(p)])
      + [DeclareView]
      + AllInjectionStatements(es)
  }

  /** One clearing assignment per field binding, in order. */
  function ClearStatements(fs: seq<FieldBinding>): (ss: seq<Statement>)
    ensures |ss| == |fs|
    ensures forall i :: 0 <= i < |fs| ==> ss[i] == ClearField(fs[i].name)
    ensures forall s :: s in ss ==> s.ClearField?
  {
    seq(|fs|, i requires 0 <= i < |fs| => ClearField(fs[i].name))
  }

  /** The clearing assignments of `reset`, id by id. */
  function AllClearStatements(es: Entries): seq<Statement> {
    if es == [] then []
    else AllClearStatements(es[..|es| - 1]) + ClearStatements(es[|es| - 1].fieldBindings)
  }

  /** The body of the generated `reset`. */
  function ResetStatements(parent: Option<string>, es: Entries): seq<Statement> {
    (match parent case None => [] case Some(p) => [CallParentReset(p)])
      + AllClearStatements(es)
  }

  /** The text of `inject` grows by one block per id. */
  lemma InjectionStep(text: string, head: seq<Statement>, es: Entries, i: nat)
    requires i < |es|
    ensures AppendStatements(text, head + AllInjectionStatements(es[..i + 1]))
         == AppendStatements(AppendStatements(text, head + AllInjectionStatements(es[..i])), InjectionStatements(es[i]))
  {
    assert es[..i + 1][..i] == es[..i];
    assert head + AllInjectionStatements(es[..i + 1])
        == (head + AllInjectionStatements(es[..i])) + InjectionStatements(es[i]);
    AppendStatementsConcat(text, head + AllInjectionStatements(es[..i]), InjectionStatements(es[i]));
  }

  /** The text of `reset` grows by the clearing assignments of one id. */
  lemma ClearStep(text: string, head: seq<Statement>, es: Entries, i: nat)
    requires i < |es|
    ensures AppendStatements(text, head + AllClearStatements(es[..i + 1]))
         == AppendStatements(text, head + AllClearStatements(es[..i]) + ClearStatements(es[i].fieldBindings))
  {
    assert es[..i + 1][..i] == es[..i];
    assert head + AllClearStatements(es[..i + 1])
        == head + AllClearStatements(es[..i]) + ClearStatements(es[i].fieldBindings);
  }

  /** Clearing one more field appends one line. */
  lemma ClearFieldStep(text: string, done: seq<Statement>, fs: seq<FieldBinding>, j: nat)
    requires j < |fs|
    ensures AppendStatements(text, done + ClearStatements(fs[..j + 1]))
         == AppendStatements(text, done + ClearStatements(fs[..j])) + TARGET_FIELD + fs[j].name + NULL_END
  {
    var s := ClearField(fs[j].name);
    assert ClearStatements(fs[..j + 1]) == ClearStatements(fs[..j]) + [s];
    assert done + ClearStatements(fs[..j + 1]) == (done + ClearStatements(fs[..j])) + [s];
    AppendStatementsConcat(text, done + ClearStatements(fs[..j]), [s]);
    AppendStatementsOne(AppendStatements(text, done + ClearStatements(fs[..j])), s);
  }

  /** Assigning one more field appends one line, cast when needed. */
  lemma AssignFieldStep(text: string, fs: seq<FieldBinding>, i: nat)
    requires i < |fs|
    ensures AppendStatements(text, FieldStatements(fs[..i + 1]))
         == AppendCastIfNeeded(AppendStatements(text, FieldStatements(fs[..i])) + TARGET_FIELD + fs[i].name + ASSIGN,
                               fs[i].viewType) + VIEW_END
  {
    var s := AssignField(fs[i].name, fs[i].viewType);
    assert FieldStatements(fs[..i + 1]) == FieldStatements(fs[..i]) + [s];
    AppendStatementsConcat(text, FieldStatements(fs[..i]), [s]);
    AppendStatementsOne(AppendStatements(text, FieldStatements(fs[..i])), s);
  }

  /** The text of one id's block, part by part. */
  lemma InjectionText(text: string, v: ViewInjection)
    ensures AppendStatements(text, InjectionStatements(v))
         == AppendStatements(AppendStatements(AppendStatements(AppendStatement(text, FindView(v.id)),
              NullCheckStatements(v)), FieldStatements(v.fieldBindings)), MethodStatements(v))
  {
    var lookup := [FindView(v.id)];
    var check := NullCheckStatements(v);
    var fields := FieldStatements(v.fieldBindings);
    AppendStatementsOne(text, FindView(v.id));
    AppendStatementsConcat(text, lookup, check);
    AppendStatementsConcat(text, lookup + check, fields);
    AppendStatementsConcat(text, lookup + check + fields, MethodStatements(v));
  }

  /** The lookup's text, as `emitViewInjection` appends it piece by piece. */
  lemma FindViewText(text: string, id: JavaInt)
    ensures AppendStatement(text, FindView(id)) == text + FIND_VIEW_HEAD + IntToString(id) + CALL_END
  {
  }

  /** The null check's text, as `emitViewInjection` appends it piece by piece. */
  lemma RequireViewText(text: string, id: JavaInt, required: seq<Binding>)
    ensures AppendStatement(text, RequireView(id, required))
         == text + NULL_CHECK_OPEN + MISSING_VIEW_HEAD + IntToString(id) + MESSAGE_FOR
            + DescriptionJoin(required) + MISSING_VIEW_TAIL + BLOCK_CLOSE
  {
  }

  /** The text of the null check: the throw, or nothing. */
  lemma NullCheckText(text: string, v: ViewInjection)
    ensures RequiredBindings(v) == [] ==> AppendStatements(text, NullCheckStatements(v)) == text
    ensures RequiredBindings(v) != [] ==>
      AppendStatements(text, NullCheckStatements(v)) == AppendStatement(text, RequireView(v.id, RequiredBindings(v)))
  {
    if RequiredBindings(v) != [] {
      AppendStatementsOne(text, RequireView(v.id, RequiredBindings(v)));
    }
  }

  /** The text of the click method's statements: the listener, or nothing. */
  lemma MethodStatementsText(text: string, v: ViewInjection)
    ensures v.methodBinding.None? ==> AppendStatements(text, MethodStatements(v)) == text
    ensures v.methodBinding.Some? ==>
      AppendStatements(text, MethodStatements(v))
      == AppendClickListener(text, v.methodBinding.value, RequiredBindings(v) == [])
  {
    if v.methodBinding.Some? {
      var guarded := RequiredBindings(v) == [];
      AppendStatementsOne(text, SetClickListener(v.methodBinding.value, guarded));
      ClickListenerText(text, v.methodBinding.value, guarded);
    }
  }

  /** The listener's statement appends `AppendClickListener`'s text. */
  lemma ClickListenerText(text: string, m: MethodBinding, guarded: bool)
    ensures AppendStatement(text, SetClickListener(m, guarded)) == AppendClickListener(text, m, guarded)
  {
  }

  // ---------------------------------------------------------------------
  // The generated text

  /** The text after `emitInject` on a builder holding `text`. */
  function AppendInject(text: string, targetClass: string, parent: Option<string>, es: Entries): string {
    var signature := text + "  public static void inject(Finder finder, final " + targetClass
      + " target, Object source) {\n";
    AppendStatements(signature, InjectStatements(parent, es)) + "  }\n"
  }

  /** The text after `emitReset` on a builder holding `text`. */
  function AppendReset(text: string, targetClass: string, parent: Option<string>, es: Entries): string {
    var signature := text + "  public static void reset(" + targetClass + " target) {\n";
    AppendStatements(signature, ResetStatements(parent, es)) + "  }\n"
  }

  /** What `brewJava` returns. */
  function BrewText(classPackage: string, className: string, targetClass: string,
                    parent: Option<string>, es: Entries): string {
    var header := "" + "// Generated code from Butter Knife. Do not modify!\n"
      + "package " + classPackage + ";\n\n"
      + "import android.view.View;\n"
      + "import butterknife.ButterKnife.Finder;\n\n"
      + "public class " + className + " {\n";
    AppendReset(AppendInject(header, targetClass, parent, es) + "\n", targetClass, parent, es) + "}\n"
  }
}
