# Butter Knife `TargetClass` in Dafny

Butter Knife's annotation processor builds one `TargetClass` for every Android
class that has `@InjectView` fields or `@OnClick` methods, and then writes the
source of that class's `$$ViewInjector` companion. This project models that
generation engine. The work happens in two phases.

- **Build.** `addField` and `addMethod` fill a `LinkedHashMap` from view id
  to `ViewInjection`, and `setParentInjector` records the parent injector. A `ViewInjection` is what
  one id binds: its fields in the order they were added, and at most one click
  method.
- **Render.** `brewJava` appends the Java text of `inject` and `reset` to a
  `StringBuilder`:
  - one `findById` lookup per id, in the map's order;
  - a null check that throws `IllegalStateException("Required view with id
    '<id>' for <joined descriptions> was not found. If this view is optional
    add '@Optional' annotation.")` whenever the id has a required binding;
  - the field assignments, cast unless the type is `android.view.View`;
  - the click listener, wrapped in `if (view != null)` when nothing on the id
    is required;
  - and a first call to the parent injector, when there is one.

The model is organised as follows:

- `java_lang.dfy`: Java `int`, `null` as `Option`, `Integer.toString`, and a
  `StringBuilder` that keeps its text.
- `bindings.dfy`: field and method bindings and `ViewInjection`.
- `view_id_map.dfy`: the insertion-ordered map as a sequence of entries with
  distinct ids, plus the pure meaning of each build operation. It also holds
  `Replay`, which applies a whole sequence of build calls.
- `render.dfy`:
  - the generated method bodies as a list of `Statement`s;
  - `AppendStatement`, the exact text each statement appends to a builder;
  - the `humanDescriptionJoin` grammar.
- `render_properties.dfy`: the properties of the rendered statements. These are
  one lookup per id, null check iff required, listener guard, parent first, and
  reset mirroring inject.
- `target_class.dfy`: the `TargetClass` class itself. Its fields are updated
  in place by its methods. Each loop-based `emit*` method is proved to append
  exactly the text the render functions give.

## Model

| member | source | states |
|---|---|---|
| TargetClasses.TargetClass.constructor | butterknife/src/main/java/butterknife/internal/TargetClass.java:16-20 | a new target class keeps its package, class and target names, with an empty id map and no parent injector |
| TargetClasses.TargetClass.AddField | butterknife/src/main/java/butterknife/internal/TargetClass.java:22-24 | the new map is `WithField` of the old one: the field is appended to its id's entry, which is created at the end if the id is new; the parent is unchanged |
| TargetClasses.TargetClass.AddMethod | butterknife/src/main/java/butterknife/internal/TargetClass.java:26-33 | result and new map are `WithMethod` of the old map: `true` and the method stored iff the id had no click method, else `false` and the map unchanged |
| TargetClasses.TargetClass.SetParentInjector | butterknife/src/main/java/butterknife/internal/TargetClass.java:35-37 | the parent injector becomes the argument (`None` for `null`); the map is unchanged |
| TargetClasses.TargetClass.GetOrCreateViewBinding | butterknife/src/main/java/butterknife/internal/TargetClass.java:39-46 | the map becomes `Created(old, id)`, and the returned position is where `get(id)` now finds the id's entry |
| TargetClasses.TargetClass.GetFqcn | butterknife/src/main/java/butterknife/internal/TargetClass.java:48-50 | the fully qualified name is the package, one `.`, then the class name |
| TargetClasses.TargetClass.BrewJava | butterknife/src/main/java/butterknife/internal/TargetClass.java:52-64 | the returned source is `BrewText`: the header, the `inject` text, a blank line, the `reset` text and the closing brace |
| TargetClasses.TargetClass.EmitInject | butterknife/src/main/java/butterknife/internal/TargetClass.java:66-87 | the loop appends exactly `AppendInject`: the signature, then the parent call and `View view;`, then every entry's block in map order |
| TargetClasses.TargetClass.EmitViewInjection | butterknife/src/main/java/butterknife/internal/TargetClass.java:89-107 | appends exactly the text of the entry's statements: the lookup, the null check when something is required, its fields, then its click method |
| TargetClasses.TargetClass.EmitFieldBindings | butterknife/src/main/java/butterknife/internal/TargetClass.java:109-117 | the loop appends one assignment per field binding, in order, each cast as `AppendCastIfNeeded` says |
| TargetClasses.TargetClass.EmitMethodBindings | butterknife/src/main/java/butterknife/internal/TargetClass.java:119-153 | appends nothing without a click method; otherwise appends the listener text, guarded exactly when the id has no required binding |
| TargetClasses.TargetClass.EmitReset | butterknife/src/main/java/butterknife/internal/TargetClass.java:155-168 | the nested loops append exactly `AppendReset`: the parent call, then `target.<name> = null;` per field, in id order then field order |
| TargetClasses.TargetClass.EmitCastIfNeeded | butterknife/src/main/java/butterknife/internal/TargetClass.java:170-175 | appends the cast given by `AppendCastIfNeeded` |
| TargetClasses.TargetClass.HumanDescriptionJoin | butterknife/src/main/java/butterknife/internal/TargetClass.java:177-197 | the loop's result is `DescriptionJoin` of the bindings |
| JavaLang.IntToString | butterknife/src/main/java/butterknife/internal/TargetClass.java:90-92 | the printed id is non-empty and starts with `-` iff it is negative; the digits after it denote exactly the id's magnitude, with no leading zero except for `0` itself |
| JavaLang.IntToStringInjective | butterknife/src/main/java/butterknife/internal/TargetClass.java:90-92 | distinct ids print as distinct text, so every lookup names its own view |
| Bindings.AddMethodBinding | butterknife/src/main/java/butterknife/internal/TargetClass.java:26-33 | a click method is refused iff the entry already has one; otherwise it is stored, and the id and fields are kept |
| Bindings.RequiredBindings | butterknife/src/main/java/butterknife/internal/TargetClass.java:94-95 | starts with `RequiredFields` of the id's fields; has one more element iff the click method is required, and that element is the click method; empty iff nothing on the id is required |
| Bindings.RequiredFieldsConcat | butterknife/src/main/java/butterknife/internal/TargetClass.java:94-95 | the required fields of two runs of field bindings are those of the first run followed by those of the second, so the order of addition and every repetition are kept |
| Bindings.RequiredFieldsOne | butterknife/src/main/java/butterknife/internal/TargetClass.java:94-95 | one field binding contributes itself iff it is required |
| ViewIdMap.IndexOf | butterknife/src/main/java/butterknife/internal/TargetClass.java:40 | `get(id)` finds the first entry with that id, and finds one iff the id is bound |
| ViewIdMap.Created | butterknife/src/main/java/butterknife/internal/TargetClass.java:39-46 | a bound id leaves the map unchanged; a new id is appended last with an empty entry; every binding is kept and ids stay distinct |
| ViewIdMap.WithField | butterknife/src/main/java/butterknife/internal/TargetClass.java:22-24 | the id's fields gain the new one at the end; every other id, and the id's click method, is unchanged; ids stay distinct and in first-use order |
| ViewIdMap.WithMethod | butterknife/src/main/java/butterknife/internal/TargetClass.java:26-33 | `true` iff the id had no click method; on `false` the map is unchanged; on `true` only that id's click method changes |
| ViewIdMap.ReplayOrder | butterknife/src/main/java/butterknife/internal/TargetClass.java:39-46 | after any sequence of build calls, the map holds each bound id once, in the order the ids were first used |
| ViewIdMap.ReplayFields | butterknife/src/main/java/butterknife/internal/TargetClass.java:22-24 | after any sequence of build calls, an id's fields are exactly those added to it, in call order |
| ViewIdMap.ReplayMethod | butterknife/src/main/java/butterknife/internal/TargetClass.java:26-33 | after any sequence of build calls, an id's click method is the first one bound to it |
| ViewIdMap.AddMethodAfterReplay | butterknife/src/main/java/butterknife/internal/TargetClass.java:26-33 | `addMethod` answers `true` iff no earlier call bound a click method to that id |
| ViewIdMap.SecondMethodRefused | butterknife/src/main/java/butterknife/internal/TargetClass.java:26-33 | a second click method on one id is refused, changes nothing and leaves the first in place |
| Render.AppendCastIfNeeded | butterknife/src/main/java/butterknife/internal/TargetClass.java:170-175 | keeps the text; appends nothing iff the type is `android.view.View`, otherwise appends `(<type>) ` |
| Render.AppendClickArgument | butterknife/src/main/java/butterknife/internal/TargetClass.java:139-143 | no parameter type gives a no-argument call; `View` gives `view`; any other type gives `(<type>) view` |
| Render.JoinGrammar | butterknife/src/main/java/butterknife/internal/TargetClass.java:177-197 | one item is itself; two are `A and B`; three or more are `A, B, ..., and Z` |
| Render.JoinPrefixIsCommaJoin | butterknife/src/main/java/butterknife/internal/TargetClass.java:184-192 | the loop's text before the last item is the earlier descriptions joined by `, ` |
| RenderProperties.FieldStatementsProjections | butterknife/src/main/java/butterknife/internal/TargetClass.java:109-117 | an entry's field statements assign exactly its field names, in the order the fields were added, and look up, clear or delegate nothing |
| RenderProperties.AllClearIsClearAll | butterknife/src/main/java/butterknife/internal/TargetClass.java:162-166 | the nested loops of `reset` produce one clearing statement per field, id by id and, within an id, in the order the fields were added |
| RenderProperties.ClearAllProjections | butterknife/src/main/java/butterknife/internal/TargetClass.java:164 | those statements clear exactly the given names, in order, and delegate nothing |
| Render.NullCheckMessage | butterknife/src/main/java/butterknife/internal/TargetClass.java:94-103 | the null check is `if (view == null) { throw new IllegalStateException("...") }`, and its message is `MissingViewMessage` for the id and joined required bindings |
| RenderProperties.OneLookupPerBlock | butterknife/src/main/java/butterknife/internal/TargetClass.java:89-107 | an entry's block starts with its one lookup, then assigns exactly its fields in order, and clears or delegates nothing |
| RenderProperties.NullCheckIffRequired | butterknife/src/main/java/butterknife/internal/TargetClass.java:94-103 | a block has a null check iff it has a required binding; the check comes right after the lookup and carries exactly the required bindings |
| RenderProperties.ClickListenerGuard | butterknife/src/main/java/butterknife/internal/TargetClass.java:119-153 | a block registers a listener iff the id has a click method, and guards it iff the id's required bindings are empty |
| RenderProperties.AllInjectionProjections | butterknife/src/main/java/butterknife/internal/TargetClass.java:82-84 | the entries' blocks look up every id in map order and assign every field in id order, then field order |
| RenderProperties.InjectLookupsInIdOrder | butterknife/src/main/java/butterknife/internal/TargetClass.java:66-87 | `inject` looks up exactly the map's ids, in map order |
| RenderProperties.InjectLookupOncePerId | butterknife/src/main/java/butterknife/internal/TargetClass.java:66-87 | with distinct ids, `inject` looks each bound id up exactly once and no other id at all |
| RenderProperties.InjectAssignsEveryField | butterknife/src/main/java/butterknife/internal/TargetClass.java:66-87 | `inject` assigns every field in id order, then field order, and clears nothing |
| RenderProperties.BuiltInjectLookups | butterknife/src/main/java/butterknife/internal/TargetClass.java:82-84 | after any build sequence, `inject` looks up each bound id once, in first-use order |
| RenderProperties.ResetMirrorsInject | butterknife/src/main/java/butterknife/internal/TargetClass.java:155-168 | `reset` is the parent call followed by clearing every field; it clears exactly the fields `inject` assigns, in the same order, and click methods add nothing |
| RenderProperties.ParentCallsComeFirst | butterknife/src/main/java/butterknife/internal/TargetClass.java:66-76 | with a parent injector, `inject` and `reset` both start by calling the parent's method; each delegates exactly once with one and never without |

## Left out

- The analysis in `InjectViewProcessor`: annotation scanning, validation and the search for a parent injector. It is not part of this model; the model starts from the calls it makes on `TargetClass`.
- Writing the source through the annotation processing `Filer`, and error reporting through `Messager`: these are I/O.
- The behaviour of the generated code on Android (`findById`, listeners): the model fixes the generated text, not what it does at run time.
- The Java source of `ViewInjection`, `FieldBinding` and `MethodBinding` is not part of this model. They are modelled as datatypes with the behaviour `TargetClass` relies on. A click method's description, `method '<name>'`, is a stated assumption of that kind.
- `LinkedHashMap` hashing and `Integer` boxing: the map is modelled by its values in insertion order, with distinct ids.
- `StringBuilder` is reduced to its text and `append`; `append(char)` is the same as appending a one-character string.
- TargetClasses.TargetClass.GetOrCreateViewBinding: returns the entry's position rather than a shared reference to a mutable `ViewInjection`. Entries are values, so the update through that reference is made by `AddField` and `AddMethod` replacing the entry at that position.
- Indentation is modelled as the code writes it. This includes the two spaces that the guard's opening text adds before only the first line of a guarded click listener; Java ignores them.
