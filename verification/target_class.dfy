/** `TargetClass`: the model of one generated `$$ViewInjector` class. The
    analysis phase fills it through `AddField`, `AddMethod` and
    `SetParentInjector`; `BrewJava` then writes the Java source by appending to
    a `StringBuilder`, exactly as the render functions describe. */
module TargetClasses {
  import opened JavaLang
  import opened Bindings
  import opened ViewIdMap
  import opened Render

  class TargetClass {
    /** The `LinkedHashMap` from view id to its injection, as its values in
        insertion order. */
    var viewIdMap: Entries
    const classPackage: string
    const className: string
    const targetClass: string
    /** The injector of the nearest annotated superclass; `None` is `null`. */
    var parentInjector: Option<string>

    /** The map has one entry per id. */
    ghost predicate Valid()
      reads this
    {
      DistinctIds(viewIdMap)
    }

    constructor (classPackage: string, className: string, targetClass: string)
      ensures Valid()
      ensures this.classPackage == classPackage && this.className == className
      ensures this.targetClass == targetClass
      ensures viewIdMap == [] && parentInjector == None
    {
      this.classPackage := classPackage;
      this.className := className;
      this.targetClass := targetClass;
      viewIdMap := [];
      parentInjector := None;
    }

    /** `addField`: appends a field binding to the id's entry, creating it when
        the id is new. */
    method AddField(id: JavaInt, name: string, viewType: string, required: bool)
      requires Valid()
      modifies this
      ensures Valid()
      ensures viewIdMap == WithField(old(viewIdMap), id, FieldBinding(name, viewType, required))
      ensures parentInjector == old(parentInjector)
    {
      var field := FieldBinding(name, viewType, required);
      var index := GetOrCreateViewBinding(id);
      viewIdMap := viewIdMap[index := AddFieldBinding(viewIdMap[index], field)];
      assert viewIdMap == WithField(old(viewIdMap), id, field);
    }

    /** `addMethod`: records the click method and answers `true`, or answers
        `false` when the id already has one. */
    method AddMethod(id: JavaInt, name: string, parameterType: Option<string>, required: bool)
      returns (added: bool)
      requires Valid()
      modifies this
      ensures Valid()
      ensures (added, viewIdMap) == WithMethod(old(viewIdMap), id, MethodBinding(name, parameterType, required))
      ensures parentInjector == old(parentInjector)
    {
      var click := MethodBinding(name, parameterType, required);
      var index := GetOrCreateViewBinding(id);
      match AddMethodBinding(viewIdMap[index], click) {
        case Some(v) =>
          viewIdMap := viewIdMap[index := v];
          added := true;
        case None =>
          added := false;
      }
      assert (added, viewIdMap) == WithMethod(old(viewIdMap), id, click);
    }

    /** `setParentInjector`: records the parent injector, replacing any earlier
        one; `None` stands for Java's `null` and clears it. */
    method SetParentInjector(parentInjector: Option<string>)
      modifies this
      ensures this.parentInjector == parentInjector
      ensures viewIdMap == old(viewIdMap)
    {
      this.parentInjector := parentInjector;
    }

    /** `getOrCreateViewBinding`: the position of the id's entry, after putting
        an empty one at the end when the id is new. */
    method GetOrCreateViewBinding(id: JavaInt) returns (index: nat)
      requires Valid()
      modifies this
      ensures Valid()
      ensures viewIdMap == Created(old(viewIdMap), id)
      ensures index < |viewIdMap| && index == IndexOf(viewIdMap, id)
      ensures parentInjector == old(parentInjector)
    {
      index := IndexOf(viewIdMap, id);
      if index == |viewIdMap| {
        AppendedFound(viewIdMap, NewViewInjection(id));
        viewIdMap := viewIdMap + [NewViewInjection(id)];
      }
    }

    /** `getFqcn`: the package, a dot, then the generated class's name. */
    function GetFqcn(): (fqcn: string)
      ensures |fqcn| == |classPackage| + 1 + |className|
      ensures fqcn[..|classPackage|] == classPackage
      ensures fqcn[|classPackage|] == '.'
      ensures fqcn[|classPackage| + 1..] == className
    {
      classPackage + "." + className
    }

    /** `brewJava`: the whole generated source file. */
    method BrewJava() returns (java: string)
      ensures java == BrewText(classPackage, className, targetClass, parentInjector, viewIdMap)
    {
      var builder := new StringBuilder();
      builder.Append("// Generated code from Butter Knife. Do not modify!\n");
      builder.Append("package ");
      builder.Append(classPackage);
      builder.Append(";\n\n");
      builder.Append("import android.view.View;\n");
      builder.Append("import butterknife.ButterKnife.Finder;\n\n");
      builder.Append("public class ");
      builder.Append(className);
      builder.Append(" {\n");
      EmitInject(builder);
      builder.Append("\n");
      EmitReset(builder);
      builder.Append("}\n");
      java := builder.text;
    }

    /** `emitInject`: the signature, the parent call, the local `view`, then one
        block per id in map order. */
    method EmitInject(builder: StringBuilder)
      modifies builder
      ensures builder.text == AppendInject(old(builder.text), targetClass, parentInjector, viewIdMap)
    {
      builder.Append("  public static void inject(Finder finder, final ");
      builder.Append(targetClass);
      builder.Append(" target, Object source) {\n");
      ghost var start := builder.text;

      ghost var head: seq<Statement> := [];
      if parentInjector.Some? {
        builder.Append(INDENT);
        builder.Append(parentInjector.value);
        builder.Append(PARENT_INJECT_CALL);
        head := [CallParentInject(parentInjector.value)];
        AppendStatementsOne(start, head[0]);
      }
      ghost var afterParent := builder.text;
      builder.Append(DECLARE_VIEW);
      AppendStatementsConcat(start, head, [DeclareView]);
      AppendStatementsOne(afterParent, DeclareView);
      head := head + [DeclareView];
      assert head + AllInjectionStatements(viewIdMap[..0]) == head;

      for i := 0 to |viewIdMap|
        invariant builder.text == AppendStatements(start, head + AllInjectionStatements(viewIdMap[..i]))
      {
        EmitViewInjection(builder, viewIdMap[i]);
        InjectionStep(start, head, viewIdMap, i);
      }
      assert viewIdMap[..|viewIdMap|] == viewIdMap;
      builder.Append("  }\n");
    }

    /** `emitViewInjection`: the one lookup for the id, the null check when a
        binding on it is required, its fields, then its click method. */
    method EmitViewInjection(builder: StringBuilder, injection: ViewInjection)
      modifies builder
      ensures builder.text == AppendStatements(old(builder.text), InjectionStatements(injection))
    {
      ghost var start := builder.text;
      builder.Append(FIND_VIEW_HEAD);
      builder.Append(IntToString(injection.id));
      builder.Append(CALL_END);
      FindViewText(start, injection.id);

      ghost var afterLookup := builder.text;
      var requiredBindings := RequiredBindings(injection);
      if !(requiredBindings == []) {
        builder.Append(NULL_CHECK_OPEN);
        builder.Append(MISSING_VIEW_HEAD);
        builder.Append(IntToString(injection.id));
        builder.Append(MESSAGE_FOR);
        var joined := HumanDescriptionJoin(requiredBindings);
        builder.Append(joined);
        builder.Append(MISSING_VIEW_TAIL);
        builder.Append(BLOCK_CLOSE);
        RequireViewText(afterLookup, injection.id, requiredBindings);
      }
      NullCheckText(afterLookup, injection);
      assert builder.text == AppendStatements(afterLookup, NullCheckStatements(injection));

      ghost var afterCheck := builder.text;
      EmitFieldBindings(builder, injection);
      assert builder.text == AppendStatements(afterCheck, FieldStatements(injection.fieldBindings));
      EmitMethodBindings(builder, injection);
      InjectionText(start, injection);
    }

    /** `emitFieldBindings`: one assignment per field binding of the id, in the
        order they were added. */
    method EmitFieldBindings(builder: StringBuilder, injection: ViewInjection)
      modifies builder
      ensures builder.text == AppendStatements(old(builder.text), FieldStatements(injection.fieldBindings))
    {
      ghost var start := builder.text;
      var fields := injection.fieldBindings;
      assert FieldStatements(fields[..0]) == [];
      for i := 0 to |fields|
        invariant builder.text == AppendStatements(start, FieldStatements(fields[..i]))
      {
        AssignFieldStep(start, fields, i);
        builder.Append(TARGET_FIELD);
        builder.Append(fields[i].name);
        builder.Append(ASSIGN);
        EmitCastIfNeeded(builder, fields[i].viewType);
        builder.Append(VIEW_END);
      }
      assert fields[..|fields|] == fields;
    }

    /** `emitMethodBindings`: the click listener, inside a null guard only
        when nothing on the id is required. */
    method EmitMethodBindings(builder: StringBuilder, injection: ViewInjection)
      modifies builder
      ensures builder.text == AppendStatements(old(builder.text), MethodStatements(injection))
    {
      if injection.methodBinding.Some? {
        ghost var start := builder.text;
        var methodBinding := injection.methodBinding.value;
        var requiredBindings := RequiredBindings(injection);
        var extraIndent := "";
        if requiredBindings == [] {
          builder.Append(NULL_GUARD_OPEN);
          extraIndent := EXTRA_INDENT;
        }
        ghost var linesStart := builder.text;
        builder.Append(extraIndent);
        builder.Append(LISTENER_OPEN);
        builder.Append(extraIndent);
        builder.Append(ON_CLICK_OPEN);
        builder.Append(extraIndent);
        builder.Append(ON_CLICK_CALL);
        builder.Append(methodBinding.name);
        builder.Append("(");
        ghost var beforeArgument := builder.text;
        if methodBinding.viewType.Some? {
          EmitCastIfNeeded(builder, methodBinding.viewType.value);
          builder.Append("view");
        }
        assert builder.text == AppendClickArgument(beforeArgument, methodBinding);
        builder.Append(CALL_END);
        builder.Append(extraIndent);
        builder.Append(ON_CLICK_CLOSE);
        builder.Append(extraIndent);
        builder.Append(LISTENER_CLOSE);
        assert builder.text == AppendListenerLines(linesStart, methodBinding, extraIndent);
        if requiredBindings == [] {
          builder.Append(BLOCK_CLOSE);
        }
        assert builder.text == AppendClickListener(start, methodBinding, requiredBindings == []);
      }
      MethodStatementsText(old(builder.text), injection);
    }

    /** `emitReset`: the signature, the parent call, then one `= null` per
        field binding, id by id. */
    method EmitReset(builder: StringBuilder)
      modifies builder
      ensures builder.text == AppendReset(old(builder.text), targetClass, parentInjector, viewIdMap)
    {
      builder.Append("  public static void reset(");
      builder.Append(targetClass);
      builder.Append(" target) {\n");
      ghost var start := builder.text;

      ghost var head: seq<Statement> := [];
      if parentInjector.Some? {
        builder.Append(INDENT);
        builder.Append(parentInjector.value);
        builder.Append(PARENT_RESET_CALL);
        head := [CallParentReset(parentInjector.value)];
        AppendStatementsOne(start, head[0]);
      }
      assert head + AllClearStatements(viewIdMap[..0]) == head;

      for i := 0 to |viewIdMap|
        invariant builder.text == AppendStatements(start, head + AllClearStatements(viewIdMap[..i]))
      {
        var fields := viewIdMap[i].fieldBindings;
        ghost var done := head + AllClearStatements(viewIdMap[..i]);
        assert done + ClearStatements(fields[..0]) == done;
        for j := 0 to |fields|
          invariant builder.text == AppendStatements(start, done + ClearStatements(fields[..j]))
        {
          ClearFieldStep(start, done, fields, j);
          builder.Append(TARGET_FIELD);
          builder.Append(fields[j].name);
          builder.Append(NULL_END);
        }
        assert fields[..|fields|] == fields;
        ClearStep(start, head, viewIdMap, i);
      }
      assert viewIdMap[..|viewIdMap|] == viewIdMap;
      builder.Append("  }\n");
    }

    /** `emitCastIfNeeded`: `(<type>) ` unless the type is `View`. */
    static method EmitCastIfNeeded(builder: StringBuilder, viewType: string)
      modifies builder
      ensures builder.text == AppendCastIfNeeded(old(builder.text), viewType)
    {
      if VIEW_TYPE != viewType {
        builder.Append("(");
        builder.Append(viewType);
        builder.Append(") ");
      }
    }

    /** `humanDescriptionJoin`: the descriptions of the bindings joined as an
        English list. */
    static method HumanDescriptionJoin(bindings: seq<Binding>) returns (joined: string)
      ensures joined == DescriptionJoin(bindings)
    {
      if |bindings| == 1 {
        joined := Description(bindings[0]);
      } else if |bindings| == 2 {
        joined := Description(bindings[0]) + " and " + Description(bindings[1]);
      } else {
        var names := new StringBuilder();
        var count := |bindings|;
        for i := 0 to count
          invariant names.text == JoinPrefix(bindings, i)
        {
          var requiredField := bindings[i];
          if i != 0 {
            names.Append(", ");
          }
          if i == count - 1 {
            names.Append("and ");
          }
          names.Append(Description(requiredField));
        }
        joined := names.text;
      }
    }
  }
}
