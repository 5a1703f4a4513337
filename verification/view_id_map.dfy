/** The build phase of `TargetClass`, on values. The `LinkedHashMap` from view
    id to `ViewInjection` is the sequence of its values in insertion order; each
    value carries its own id, and the ids are distinct. The class in
    target_class.dfy keeps this sequence in a field and its mutators are proved
    to change it exactly as the functions here do. */
module ViewIdMap {
  import opened JavaLang
  import opened Bindings

  /** `viewIdMap.values()`, in the order the ids were first bound. */
  type Entries = seq<ViewInjection>

  /** `viewIdMap.keySet()`, in iteration order. */
  function Ids(es: Entries): (ids: seq<JavaInt>)
    ensures |ids| == |es|
    ensures forall i :: 0 <= i < |es| ==> ids[i] == es[i].id
  {
    if es == [] then [] else Ids(es[..|es| - 1]) + [es[|es| - 1].id]
  }

  predicate Distinct(xs: seq<JavaInt>) {
    forall i, j :: 0 <= i < j < |xs| ==> xs[i] != xs[j]
  }

  /** A map has one entry per key. */
  predicate DistinctIds(es: Entries) {
    Distinct(Ids(es))
  }

  /** Where `viewIdMap.get(id)` finds its entry: the first position holding
      `id`, or `|es|` when there is none. */
  function IndexOf(es: Entries, id: JavaInt): (k: nat)
    ensures k <= |es|
    ensures k < |es| ==> es[k].id == id
    ensures forall j :: 0 <= j < k ==> es[j].id != id
    ensures k < |es| <==> id in Ids(es)
  {
    if es == [] then 0
    else if es[0].id == id then 0
    else
      var k := 1 + IndexOf(es[1..], id);
      assert forall j :: 1 <= j < |es| ==> es[1..][j - 1] == es[j];
      assert id in Ids(es) ==> exists j :: 1 <= j < |es| && es[j].id == id;
      k
  }

  /** The only position meeting `IndexOf`'s description is `IndexOf`. */
  lemma IndexOfUnique(es: Entries, id: JavaInt, k: nat)
    requires k <= |es|
    requires k < |es| ==> es[k].id == id
    requires forall j :: 0 <= j < k ==> es[j].id != id
    ensures IndexOf(es, id) == k
  {
  }

  /** Entries with the same ids, position by position, are searched alike. */
  lemma IndexOfSameIds(a: Entries, b: Entries, id: JavaInt)
    requires Ids(a) == Ids(b)
    ensures IndexOf(a, id) == IndexOf(b, id)
  {
    var k := IndexOf(a, id);
    assert forall j :: 0 <= j < |a| ==> a[j].id == Ids(a)[j] == Ids(b)[j] == b[j].id;
    IndexOfUnique(b, id, k);
  }

  /** The field bindings `viewIdMap.get(id)` holds; none when the id is unbound. */
  function FieldsOf(es: Entries, id: JavaInt): seq<FieldBinding> {
    var k := IndexOf(es, id);
    if k < |es| then es[k].fieldBindings else []
  }

  /** The click method `viewIdMap.get(id)` holds, if any. */
  function MethodOf(es: Entries, id: JavaInt): Option<MethodBinding> {
    var k := IndexOf(es, id);
    if k < |es| then es[k].methodBinding else None
  }

  /** The map after `getOrCreateViewBinding(id)`: unchanged when the id is
      bound, otherwise with a fresh, empty entry put at the end. */
  function Created(es: Entries, id: JavaInt): (r: Entries)
    ensures Ids(r) == if id in Ids(es) then Ids(es) else Ids(es) + [id]
    ensures |es| <= |r| <= |es| + 1 && r[..|es|] == es
    ensures IndexOf(r, id) < |r|
    ensures DistinctIds(es) ==> DistinctIds(r)
    ensures forall x :: FieldsOf(r, x) == FieldsOf(es, x) && MethodOf(r, x) == MethodOf(es, x)
  {
    if IndexOf(es, id) < |es| then es
    else
      AppendedIds(es, id);
      AppendedLookups(es, id);
      es + [NewViewInjection(id)]
  }

  lemma AppendedIds(es: Entries, id: JavaInt)
    requires id !in Ids(es)
    ensures Ids(es + [NewViewInjection(id)]) == Ids(es) + [id]
    ensures DistinctIds(es) ==> DistinctIds(es + [NewViewInjection(id)])
  {
    var r := es + [NewViewInjection(id)];
    assert r[..|es|] == es;
  }

  /** An id bound before the new entry is still found where it was. */
  lemma AppendedKeepsIndex(es: Entries, v: ViewInjection, x: JavaInt)
    requires IndexOf(es, x) < |es|
    ensures IndexOf(es + [v], x) == IndexOf(es, x)
  {
    var r := es + [v];
    var j := IndexOf(es, x);
    assert forall i :: 0 <= i <= j ==> r[i] == es[i];
    IndexOfUnique(r, x, j);
  }

  /** An id bound neither before nor by the new entry is still not found. */
  lemma AppendedStillAbsent(es: Entries, v: ViewInjection, x: JavaInt)
    requires IndexOf(es, x) == |es| && v.id != x
    ensures IndexOf(es + [v], x) == |es| + 1
  {
    var r := es + [v];
    assert forall i :: 0 <= i < |es| ==> r[i] == es[i];
    IndexOfUnique(r, x, |r|);
  }

  /** The new entry is found at the end. */
  lemma AppendedFound(es: Entries, v: ViewInjection)
    requires IndexOf(es, v.id) == |es|
    ensures IndexOf(es + [v], v.id) == |es|
  {
    var r := es + [v];
    assert forall i :: 0 <= i < |es| ==> r[i] == es[i];
    IndexOfUnique(r, v.id, |es|);
  }

  lemma AppendedLookup(es: Entries, id: JavaInt, x: JavaInt)
    requires IndexOf(es, id) == |es|
    ensures IndexOf(es + [NewViewInjection(id)], id) == |es|
    ensures FieldsOf(es + [NewViewInjection(id)], x) == FieldsOf(es, x)
    ensures MethodOf(es + [NewViewInjection(id)], x) == MethodOf(es, x)
  {
    var v := NewViewInjection(id);
    AppendedFound(es, v);
    if IndexOf(es, x) < |es| {
      AppendedKeepsIndex(es, v, x);
      assert (es + [v])[IndexOf(es, x)] == es[IndexOf(es, x)];
    } else if x != id {
      AppendedStillAbsent(es, v, x);
    }
  }

  lemma AppendedLookups(es: Entries, id: JavaInt)
    requires IndexOf(es, id) == |es|
    ensures IndexOf(es + [NewViewInjection(id)], id) == |es|
    ensures forall x :: FieldsOf(es + [NewViewInjection(id)], x) == FieldsOf(es, x)
                     && MethodOf(es + [NewViewInjection(id)], x) == MethodOf(es, x)
  {
    AppendedLookup(es, id, id);
    forall x
      ensures FieldsOf(es + [NewViewInjection(id)], x) == FieldsOf(es, x)
           && MethodOf(es + [NewViewInjection(id)], x) == MethodOf(es, x)
    {
      AppendedLookup(es, id, x);
    }
  }

  /** Replacing the entry at `k` by one with the same id keeps every id where it
      was and leaves the lookups of every other id alone. */
  lemma ReplaceEntry(c: Entries, k: nat, v: ViewInjection)
    requires k < |c| && v.id == c[k].id
    requires IndexOf(c, v.id) == k
    ensures Ids(c[k := v]) == Ids(c)
    ensures IndexOf(c[k := v], v.id) == k
    ensures FieldsOf(c[k := v], v.id) == v.fieldBindings && MethodOf(c[k := v], v.id) == v.methodBinding
    ensures forall x :: x != v.id ==>
      FieldsOf(c[k := v], x) == FieldsOf(c, x) && MethodOf(c[k := v], x) == MethodOf(c, x)
  {
    var r := c[k := v];
    assert forall i :: 0 <= i < |r| ==> r[i].id == c[i].id;
    assert Ids(r) == Ids(c);
    IndexOfSameIds(r, c, v.id);
    forall x | x != v.id
      ensures FieldsOf(r, x) == FieldsOf(c, x) && MethodOf(r, x) == MethodOf(c, x)
    {
      ReplacedLookup(c, k, v, x);
    }
  }

  lemma ReplacedLookup(c: Entries, k: nat, v: ViewInjection, x: JavaInt)
    requires k < |c| && v.id == c[k].id && x != v.id
    requires Ids(c[k := v]) == Ids(c)
    ensures FieldsOf(c[k := v], x) == FieldsOf(c, x) && MethodOf(c[k := v], x) == MethodOf(c, x)
  {
    IndexOfSameIds(c[k := v], c, x);
    var j := IndexOf(c, x);
    assert j < |c| ==> j != k && c[k := v][j] == c[j];
  }

  /** `addField(id, ...)`: the field binding is appended to the id's entry,
      which is created first when the id is new. Nothing else changes. */
  function WithField(es: Entries, id: JavaInt, f: FieldBinding): (r: Entries)
    ensures Ids(r) == if id in Ids(es) then Ids(es) else Ids(es) + [id]
    ensures DistinctIds(es) ==> DistinctIds(r)
    ensures FieldsOf(r, id) == FieldsOf(es, id) + [f]
    ensures MethodOf(r, id) == MethodOf(es, id)
    ensures forall x :: x != id ==> FieldsOf(r, x) == FieldsOf(es, x) && MethodOf(r, x) == MethodOf(es, x)
  {
    var c := Created(es, id);
    var k := IndexOf(c, id);
    assert FieldsOf(c, id) == c[k].fieldBindings == FieldsOf(es, id);
    var v := AddFieldBinding(c[k], f);
    ReplaceEntry(c, k, v);
    c[k := v]
  }

  /** `addMethod(id, ...)`: `true` and the click method stored when the id has
      none yet; `false` and the map untouched when it already has one. */
  function WithMethod(es: Entries, id: JavaInt, m: MethodBinding): (r: (bool, Entries))
    ensures r.0 <==> MethodOf(es, id).None?
    ensures !r.0 ==> r.1 == es
    ensures r.0 ==> Ids(r.1) == if id in Ids(es) then Ids(es) else Ids(es) + [id]
    ensures r.0 ==> MethodOf(r.1, id) == Some(m) && FieldsOf(r.1, id) == FieldsOf(es, id)
    ensures forall x :: x != id ==> FieldsOf(r.1, x) == FieldsOf(es, x) && MethodOf(r.1, x) == MethodOf(es, x)
    ensures DistinctIds(es) ==> DistinctIds(r.1)
  {
    var c := Created(es, id);
    var k := IndexOf(c, id);
    assert MethodOf(c, id) == c[k].methodBinding == MethodOf(es, id);
    assert FieldsOf(c, id) == c[k].fieldBindings == FieldsOf(es, id);
    match AddMethodBinding(c[k], m)
    case None =>
      (false, c)
    case Some(v) =>
      ReplaceEntry(c, k, v);
      (true, c[k := v])
  }

  /** One call the analysis phase makes on a `TargetClass` while building it. */
  datatype Call =
    | BindField(id: JavaInt, fieldBinding: FieldBinding)
    | BindMethod(id: JavaInt, methodBinding: MethodBinding)

  /** The map after a sequence of `addField`/`addMethod` calls on an empty one
      (the results of `addMethod` are dropped). */
  function Replay(calls: seq<Call>): Entries {
    if calls == [] then []
    else
      var es := Replay(calls[..|calls| - 1]);
      match calls[|calls| - 1]
      case BindField(id, f) => WithField(es, id, f)
      case BindMethod(id, m) => WithMethod(es, id, m).1
  }

  /** Each id once, in the order of its first occurrence. */
  function FirstOccurrences(xs: seq<JavaInt>): (r: seq<JavaInt>)
    ensures forall x :: x in r <==> x in xs
    ensures Distinct(r)
  {
    if xs == [] then []
    else
      var r := FirstOccurrences(xs[..|xs| - 1]);
      var x := xs[|xs| - 1];
      assert xs == xs[..|xs| - 1] + [x];
      if x in r then r else r + [x]
  }

  /** The ids the calls bind, one per call. */
  function CallIds(calls: seq<Call>): (ids: seq<JavaInt>)
    ensures |ids| == |calls|
    ensures forall i :: 0 <= i < |calls| ==> ids[i] == calls[i].id
  {
    seq(|calls|, i requires 0 <= i < |calls| => calls[i].id)
  }

  /** The field bindings the calls make on `id`, in call order. */
  function FieldsBound(calls: seq<Call>, id: JavaInt): seq<FieldBinding> {
    if calls == [] then []
    else
      var prior := FieldsBound(calls[..|calls| - 1], id);
      match calls[|calls| - 1]
      case BindField(x, f) => if x == id then prior + [f] else prior
      case BindMethod(_, _) => prior
  }

  /** The first click method the calls bind to `id`, if any. */
  function FirstMethodBound(calls: seq<Call>, id: JavaInt): Option<MethodBinding> {
    if calls == [] then None
    else
      var prior := FirstMethodBound(calls[..|calls| - 1], id);
      match calls[|calls| - 1]
      case BindMethod(x, m) => if prior.None? && x == id then Some(m) else prior
      case BindField(_, _) => prior
  }

  /** Lazy creation and stable order: after any sequence of calls the map holds
      each bound id once, in the order the ids were first bound. */
  lemma {:induction false} ReplayOrder(calls: seq<Call>)
    ensures Ids(Replay(calls)) == FirstOccurrences(CallIds(calls))
    ensures DistinctIds(Replay(calls))
  {
    if calls != [] {
      var prefix := calls[..|calls| - 1];
      ReplayOrder(prefix);
      assert CallIds(calls)[..|calls| - 1] == CallIds(prefix);
    }
  }

  /** Every field binding is kept, in the order it was added to its id. */
  lemma {:induction false} ReplayFields(calls: seq<Call>, id: JavaInt)
    ensures FieldsOf(Replay(calls), id) == FieldsBound(calls, id)
  {
    if calls != [] {
      ReplayFields(calls[..|calls| - 1], id);
    }
  }

  /** An id keeps the first click method bound to it; later ones are refused. */
  lemma {:induction false} ReplayMethod(calls: seq<Call>, id: JavaInt)
    ensures MethodOf(Replay(calls), id) == FirstMethodBound(calls, id)
  {
    if calls != [] {
      ReplayMethod(calls[..|calls| - 1], id);
    }
  }

  /** `addMethod` after a sequence of calls answers `true` exactly when none of
      them bound a click method to the same id. */
  lemma AddMethodAfterReplay(calls: seq<Call>, id: JavaInt, m: MethodBinding)
    ensures WithMethod(Replay(calls), id, m).0 <==> FirstMethodBound(calls, id).None?
  {
    ReplayMethod(calls, id);
  }

  /** A second click method on one id is refused and changes nothing. */
  lemma SecondMethodRefused(es: Entries, id: JavaInt, first: MethodBinding, second: MethodBinding)
    requires MethodOf(es, id).None?
    ensures WithMethod(es, id, first).0
    ensures var (ok, after) := WithMethod(WithMethod(es, id, first).1, id, second);
            !ok && after == WithMethod(es, id, first).1 && MethodOf(after, id) == Some(first)
  {
  }
}
