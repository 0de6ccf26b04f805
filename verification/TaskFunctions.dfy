/**
  The task functions of a worker (src/worker/abstract-worker.ts): a map from names to functions, in
  insertion order, in which the name "default" stands for one of the others.
 */
module TaskFunctions {
  import opened Wrappers

  const DEFAULT_TASK_NAME := "default"

  /** A bound function: every call of bind makes a new function object, whatever its code. */
  datatype Fn = Fn(id: nat, code: string)

  datatype Entry = Entry(name: string, fn: Fn)

  /** A Map in insertion order, with the number of functions bound so far. */
  datatype Registry = Registry(entries: seq<Entry>, bound: nat)

  /** What is passed for a task function: a function, by its code, or a value of another type. */
  datatype Value = Function(code: string) | NotFunction

  datatype Operation =
    | Add(name: string, value: Value)
    | Remove(name: string)
    | SetDefault(name: string)
    | Unknown(name: string)

  /** A message as the worker gets it: the code in an add message may fail to evaluate to anything. */
  datatype Message = Message(operation: Operation) | Unevaluable(name: string)

  /** The errors thrown, by what is wrong. */
  datatype Error =
    | EmptyName | ReservedName | NotAFunction | UsedAsDefault | NotExisting | UnknownOperation
    | Mandatory | NoTaskFunctions | NotFunctionOrObject

  datatype OperationResult = OperationResult(status: bool, error: Option<Error>)

  datatype Applied = Applied(registry: Registry, result: OperationResult)

  // ---- Insertion-ordered maps ----

  function Find(es: seq<Entry>, name: string): (r: Option<nat>)
    ensures r.Some? ==> r.value < |es| && es[r.value].name == name
    ensures r.None? ==> forall i :: 0 <= i < |es| ==> es[i].name != name
  {
    if es == [] then None
    else if es[|es| - 1].name == name then Some(|es| - 1)
    else Find(es[..|es| - 1], name)
  }

  function Get(es: seq<Entry>, name: string): Option<Fn> {
    var i := Find(es, name);
    if i.Some? then Some(es[i.value].fn) else None
  }

  function Set(es: seq<Entry>, name: string, fn: Fn): seq<Entry> {
    var i := Find(es, name);
    if i.Some? then es[i.value := Entry(name, fn)] else es + [Entry(name, fn)]
  }

  function Delete(es: seq<Entry>, name: string): seq<Entry> {
    var i := Find(es, name);
    if i.Some? then es[..i.value] + es[i.value + 1..] else es
  }

  predicate DistinctNames(es: seq<Entry>) {
    forall i, j :: 0 <= i < j < |es| ==> es[i].name != es[j].name
  }

  // ---- Names ----

  /** White space and line terminators, as String.prototype.trim strips them. */
  predicate IsSpace(c: char) {
    var x := c as int;
    || 0x9 <= x <= 0xD
    || x in {0x20, 0xA0, 0x1680, 0x2028, 0x2029, 0x202F, 0x205F, 0x3000, 0xFEFF}
    || 0x2000 <= x <= 0x200A
  }

  /** The string is empty once trimmed. */
  predicate IsBlank(s: string) {
    forall i :: 0 <= i < |s| ==> IsSpace(s[i])
  }

  // ---- Operations ----

  function Refuse(r: Registry, error: Error): Applied {
    Applied(r, OperationResult(false, Some(error)))
  }

  function Apply(r: Registry, op: Operation): Applied {
    if op.Unknown? then
      Refuse(r, UnknownOperation)
    else if IsBlank(op.name) then
      Refuse(r, EmptyName)
    else
      match op
      case Add(name, value) => AddTaskFunction(r, name, value)
      case Remove(name) => RemoveTaskFunction(r, name)
      case SetDefault(name) => SetDefaultTaskFunction(r, name)
  }

  function AddTaskFunction(r: Registry, name: string, value: Value): Applied {
    if name == DEFAULT_TASK_NAME then
      Refuse(r, ReservedName)
    else if value.NotFunction? then
      Refuse(r, NotAFunction)
    else
      var boundFn := Fn(r.bound, value.code);
      var es :=
        if Get(r.entries, name) == Get(r.entries, DEFAULT_TASK_NAME) then Set(r.entries, DEFAULT_TASK_NAME, boundFn)
        else r.entries;
      Applied(Registry(Set(es, name, boundFn), r.bound + 1), OperationResult(true, None))
  }

  function RemoveTaskFunction(r: Registry, name: string): Applied {
    if name == DEFAULT_TASK_NAME then
      Refuse(r, ReservedName)
    else if Get(r.entries, name) == Get(r.entries, DEFAULT_TASK_NAME) then
      Refuse(r, UsedAsDefault)
    else
      Applied(r.(entries := Delete(r.entries, name)), OperationResult(Find(r.entries, name).Some?, None))
  }

  function SetDefaultTaskFunction(r: Registry, name: string): Applied {
    if name == DEFAULT_TASK_NAME then
      Refuse(r, ReservedName)
    else if Find(r.entries, name).None? then
      Refuse(r, NotExisting)
    else
      Applied(r.(entries := Set(r.entries, DEFAULT_TASK_NAME, Get(r.entries, name).value)), OperationResult(true, None))
  }

  // ---- The alias invariant ----

  /** Position i holds the name that "default" stands for. */
  predicate AliasAt(es: seq<Entry>, i: int) {
    0 < i < |es| && es[i].fn == es[0].fn
  }

  /**
    The first entry is "default"; the other names are distinct and bound to distinct functions;
    and exactly one of them is bound to the function of "default".
   */
  ghost predicate Aliased(r: Registry) {
    && 0 < |r.entries|
    && r.entries[0].name == DEFAULT_TASK_NAME
    && DistinctNames(r.entries)
    && (forall i, j :: 0 < i < j < |r.entries| ==> r.entries[i].fn.id != r.entries[j].fn.id)
    && (forall i :: 0 <= i < |r.entries| ==> r.entries[i].fn.id < r.bound)
    && (exists i :: AliasAt(r.entries, i))
  }

  lemma AliasUnique(r: Registry, i: int, j: int)
    requires Aliased(r) && AliasAt(r.entries, i) && AliasAt(r.entries, j)
    ensures i == j
  {
  }

  lemma FindAt(es: seq<Entry>, i: nat)
    requires DistinctNames(es) && i < |es|
    ensures Find(es, es[i].name) == Some(i)
  {
  }

  /** A new function at position i, and at "default" too if that is where the alias was. */
  lemma ReplacedAliased(es: seq<Entry>, bound: nat, i: nat, fn: Fn)
    requires Aliased(Registry(es, bound)) && 0 < i < |es| && fn.id == bound
    ensures var default := if AliasAt(es, i) then Entry(DEFAULT_TASK_NAME, fn) else es[0];
      Aliased(Registry(es[0 := default][i := Entry(es[i].name, fn)], bound + 1))
  {
    var default := if AliasAt(es, i) then Entry(DEFAULT_TASK_NAME, fn) else es[0];
    var es' := es[0 := default][i := Entry(es[i].name, fn)];
    assert forall j :: 0 <= j < |es'| ==> es'[j].name == es[j].name;
    var a :| AliasAt(es, a);
    assert AliasAt(es', a);
  }

  lemma AppendedAliased(es: seq<Entry>, bound: nat, entry: Entry)
    requires Aliased(Registry(es, bound)) && Find(es, entry.name).None? && entry.fn.id == bound
    ensures Aliased(Registry(es + [entry], bound + 1))
  {
    var a :| AliasAt(es, a);
    assert AliasAt(es + [entry], a);
  }

  lemma AddAliased(r: Registry, name: string, code: string)
    requires Aliased(r) && name != DEFAULT_TASK_NAME
    ensures Aliased(AddTaskFunction(r, name, Function(code)).registry)
  {
    var es := r.entries;
    var fn := Fn(r.bound, code);
    FindAt(es, 0);
    var at := Find(es, name);
    if at.Some? {
      ReplacedAliased(es, r.bound, at.value, fn);
      FindAt(es[0 := Entry(DEFAULT_TASK_NAME, fn)], at.value);
      assert es[0 := es[0]] == es;
    } else {
      AppendedAliased(es, r.bound, Entry(name, fn));
    }
  }

  lemma DeleteAliased(es: seq<Entry>, bound: nat, k: nat)
    requires Aliased(Registry(es, bound)) && 0 < k < |es| && !AliasAt(es, k)
    ensures Aliased(Registry(es[..k] + es[k + 1..], bound))
  {
    var es' := es[..k] + es[k + 1..];
    forall i | 0 <= i < |es'| ensures es'[i] == es[if i < k then i else i + 1] {
    }
    var a :| AliasAt(es, a);
    assert AliasAt(es', if a < k then a else a - 1);
    forall i, j | 0 <= i < j < |es'|
      ensures es'[i].name != es'[j].name && (i > 0 ==> es'[i].fn.id != es'[j].fn.id)
    {
      var i', j' := if i < k then i else i + 1, if j < k then j else j + 1;
      assert es[i'].name != es[j'].name;
    }
  }

  lemma RemoveAliased(r: Registry, name: string)
    requires Aliased(r) && name != DEFAULT_TASK_NAME
    ensures Aliased(RemoveTaskFunction(r, name).registry)
  {
    FindAt(r.entries, 0);
    var at := Find(r.entries, name);
    if at.Some? && Get(r.entries, name) != Get(r.entries, DEFAULT_TASK_NAME) {
      DeleteAliased(r.entries, r.bound, at.value);
    }
  }

  lemma SetDefaultAliased(r: Registry, name: string)
    requires Aliased(r) && name != DEFAULT_TASK_NAME
    ensures Aliased(SetDefaultTaskFunction(r, name).registry)
  {
    var es := r.entries;
    FindAt(es, 0);
    var at := Find(es, name);
    if at.Some? {
      assert AliasAt(SetDefaultTaskFunction(r, name).registry.entries, at.value);
    }
  }

  /** Every operation keeps the alias, and a refused or failed one changes nothing at all. */
  lemma ApplyKeeps(r: Registry, op: Operation)
    requires Aliased(r)
    ensures Aliased(Apply(r, op).registry)
    ensures !Apply(r, op).result.status ==> Apply(r, op).registry == r
  {
    if !IsBlank(op.name) && op.name != DEFAULT_TASK_NAME {
      match op
      case Add(name, Function(code)) => AddAliased(r, name, code);
      case Remove(name) => RemoveAliased(r, name);
      case SetDefault(name) => SetDefaultAliased(r, name);
      case _ =>
    }
  }

  // ---- What accepted operations do ----

  function Names(es: seq<Entry>): (r: seq<string>)
    ensures |r| == |es| && forall i :: 0 <= i < |r| ==> r[i] == es[i].name
  {
    seq(|es|, i requires 0 <= i < |es| => es[i].name)
  }

  lemma GetAt(es: seq<Entry>, i: nat)
    requires DistinctNames(es) && i < |es|
    ensures Get(es, es[i].name) == Some(es[i].fn) && es[i].name in Names(es)
  {
    FindAt(es, i);
    assert Names(es)[i] == es[i].name;
  }

  lemma ListedIffFound(es: seq<Entry>, x: string)
    ensures x in Names(es) <==> Find(es, x).Some?
    ensures x in Names(es) <==> Get(es, x).Some?
  {
    if Find(es, x).Some? {
      assert Names(es)[Find(es, x).value] == x;
    }
  }

  /** Setting a name binds it, and no other; a new name comes last. */
  lemma GetSet(es: seq<Entry>, name: string, fn: Fn, x: string)
    requires DistinctNames(es)
    ensures var r := Set(es, name, fn);
      && DistinctNames(r)
      && Get(r, x) == (if x == name then Some(fn) else Get(es, x))
      && Names(r) == if name in Names(es) then Names(es) else Names(es) + [name]
  {
    hide Find;
    var r := Set(es, name, fn);
    ListedIffFound(es, name);
    ListedIffFound(es, x);
    ListedIffFound(r, x);
    var at := Find(es, name);
    var i := if at.Some? then at.value else |es|;
    assert r[i] == Entry(name, fn) && forall j :: 0 <= j < |es| && j != i ==> r[j] == es[j];
    GetAt(r, i);
    if x != name && x in Names(es) {
      var j :| 0 <= j < |es| && Names(es)[j] == x;
      GetAt(es, j);
      GetAt(r, j);
    }
  }

  lemma DeleteShifts(es: seq<Entry>, i: nat)
    requires DistinctNames(es) && i < |es|
    ensures var r := Delete(es, es[i].name);
      && |r| == |es| - 1 && (forall j :: 0 <= j < |r| ==> r[j] == es[if j < i then j else j + 1])
      && DistinctNames(r)
      && Names(r) == Names(es)[..i] + Names(es)[i + 1..]
  {
    hide Find;
    FindAt(es, i);
  }

  /** Deleting a name unbinds it, and no other; the rest stays in order. */
  lemma GetDelete(es: seq<Entry>, i: nat, x: string)
    requires DistinctNames(es) && i < |es|
    ensures var r := Delete(es, es[i].name);
      && DistinctNames(r)
      && Get(r, x) == (if x == es[i].name then None else Get(es, x))
      && Names(r) == Names(es)[..i] + Names(es)[i + 1..]
  {
    hide Find, Delete, Get;
    DeleteShifts(es, i);
    var r := Delete(es, es[i].name);
    ListedIffFound(es, x);
    ListedIffFound(r, x);
    if j: nat :| j < |es| && j != i && es[j].name == x {
      GetAt(es, j);
      assert r[if j < i then j else j - 1] == es[j];
      GetAt(r, if j < i then j else j - 1);
    } else {
      DeletedGone(es, i, x, r);
    }
  }

  /** A name that no other entry has is gone. */
  lemma DeletedGone(es: seq<Entry>, i: nat, x: string, r: seq<Entry>)
    requires i < |es| && forall j: nat :: j < |es| && j != i ==> es[j].name != x
    requires |r| == |es| - 1 && forall j :: 0 <= j < |r| ==> r[j] == es[if j < i then j else j + 1]
    ensures Get(r, x) == None && (x != es[i].name ==> Get(es, x) == None)
  {
    hide Find;
    ListedIffFound(r, x);
    ListedIffFound(es, x);
  }

  /** "default" is accepted as another name's function: it is bound to that function, and nothing else changes. */
  lemma SetDefaultBinds(r: Registry, name: string, x: string)
    requires Aliased(r)
    ensures var a := Apply(r, SetDefault(name));
      && (a.result.status <==> !IsBlank(name) && name != DEFAULT_TASK_NAME && name in Names(r.entries))
      && (a.result.status ==>
            && Get(a.registry.entries, x) == Get(r.entries, if x == DEFAULT_TASK_NAME then name else x)
            && Names(a.registry.entries) == Names(r.entries) && a.registry.bound == r.bound)
  {
    hide Find, Get, Set;
    ListedIffFound(r.entries, name);
    GetAt(r.entries, 0);
    if !IsBlank(name) && name != DEFAULT_TASK_NAME && name in Names(r.entries) {
      GetSet(r.entries, DEFAULT_TASK_NAME, Get(r.entries, name).value, x);
    }
  }

  /**
    An accepted name is bound to the function given, which is a new one; "default" follows it if it
    stood for that name; every other name stays bound as it was.
   */
  lemma AddBinds(r: Registry, name: string, value: Value, x: string)
    requires Aliased(r)
    ensures var a := Apply(r, Add(name, value));
      && (a.result.status <==> !IsBlank(name) && name != DEFAULT_TASK_NAME && value.Function?)
      && (a.result.status ==>
            && var follows := name in Names(r.entries) && Get(r.entries, name) == Get(r.entries, DEFAULT_TASK_NAME);
            && Get(a.registry.entries, x) == (
                 if x == name || (x == DEFAULT_TASK_NAME && follows) then Some(Fn(r.bound, value.code))
                 else Get(r.entries, x))
            && Names(a.registry.entries) == Names(r.entries) + (if name in Names(r.entries) then [] else [name])
            && a.registry.bound == r.bound + 1)
  {
    hide Find, Get, Set;
    ListedIffFound(r.entries, name);
    GetAt(r.entries, 0);
    if !IsBlank(name) && name != DEFAULT_TASK_NAME && value.Function? {
      var fn := Fn(r.bound, value.code);
      var es :=
        if Get(r.entries, name) == Get(r.entries, DEFAULT_TASK_NAME) then Set(r.entries, DEFAULT_TASK_NAME, fn)
        else r.entries;
      GetSet(r.entries, DEFAULT_TASK_NAME, fn, x);
      GetSet(es, name, fn, x);
    }
  }

  /** An accepted removal takes exactly that name away, which is never one that "default" stands for. */
  lemma RemoveUnbinds(r: Registry, name: string, x: string)
    requires Aliased(r)
    ensures var a := Apply(r, Remove(name));
      && (a.result.status <==>
            !IsBlank(name) && name in Names(r.entries) && Get(r.entries, name) != Get(r.entries, DEFAULT_TASK_NAME))
      && (a.result.status ==>
            && Get(a.registry.entries, x) == (if x == name then None else Get(r.entries, x))
            && (exists i :: 0 <= i < |r.entries| && r.entries[i].name == name
                  && Names(a.registry.entries) == Names(r.entries)[..i] + Names(r.entries)[i + 1..])
            && a.registry.bound == r.bound)
  {
    hide Get, Delete;
    ListedIffFound(r.entries, name);
    GetAt(r.entries, 0);
    var at := Find(r.entries, name);
    if at.Some? {
      GetDelete(r.entries, at.value, x);
    }
  }

  // ---- The constructor's task functions ----

  /** A task function given to the constructor: its name and its code. */
  datatype Given = Given(name: string, code: string)

  /** The entries made for the first n task functions given. */
  function Initial(given: seq<Given>, n: nat): (r: Registry)
    requires n <= |given|
    ensures r.bound == n
  {
    if n == 0 then Registry([], 0)
    else
      var r := Initial(given, n - 1);
      var fn := Fn(r.bound, given[n - 1].code);
      var es := if n == 1 then Set(r.entries, DEFAULT_TASK_NAME, fn) else r.entries;
      Registry(Set(es, given[n - 1].name, fn), r.bound + 1)
  }

  predicate DistinctGiven(given: seq<Given>) {
    forall i, j :: 0 <= i < j < |given| ==> given[i].name != given[j].name
  }

  predicate NamesDefault(given: seq<Given>) {
    exists i :: 0 <= i < |given| && given[i].name == DEFAULT_TASK_NAME
  }

  /** Without a task function called "default": the entry for it, and then one for each function given. */
  lemma {:induction false} InitialEntries(given: seq<Given>, n: nat)
    requires 0 < n <= |given| && DistinctGiven(given) && !NamesDefault(given)
    ensures var es := Initial(given, n).entries;
      && |es| == n + 1
      && es[0] == Entry(DEFAULT_TASK_NAME, Fn(0, given[0].code))
      && forall i :: 0 <= i < n ==> es[i + 1] == Entry(given[i].name, Fn(i, given[i].code))
  {
    hide Set;
    var fn := Fn(n - 1, given[n - 1].code);
    if n > 1 {
      InitialEntries(given, n - 1);
      var es := Initial(given, n - 1).entries;
      forall i | 0 <= i < |es| ensures es[i].name != given[n - 1].name {
        assert i > 0 ==> es[i - 1 + 1].name == given[i - 1].name;
      }
      SetNew(es, given[n - 1].name, fn);
    } else {
      assert Initial(given, 0) == Registry([], 0);
      SetNew([], DEFAULT_TASK_NAME, fn);
      assert [] + [Entry(DEFAULT_TASK_NAME, fn)] == [Entry(DEFAULT_TASK_NAME, fn)];
      SetNew([Entry(DEFAULT_TASK_NAME, fn)], given[0].name, fn);
    }
  }

  lemma SetNew(es: seq<Entry>, name: string, fn: Fn)
    requires forall i :: 0 <= i < |es| ==> es[i].name != name
    ensures Set(es, name, fn) == es + [Entry(name, fn)]
  {
  }

  /** With one, "default" ends up bound to the function of that name, or of the first, and to no other name's. */
  lemma {:induction false} InitialLosesAlias(given: seq<Given>, n: nat, d: nat)
    requires d < n <= |given| && DistinctGiven(given) && given[d].name == DEFAULT_TASK_NAME
    ensures var es := Initial(given, n).entries;
      && 0 < |es| && es[0].name == DEFAULT_TASK_NAME
      && forall i :: 0 < i < |es| ==> es[i].fn.id != es[0].fn.id && es[i].name != DEFAULT_TASK_NAME
  {
    InitialShape(given, n, d);
  }

  /** The shape of the entries when the function at position d is called "default". */
  lemma {:induction false} InitialShape(given: seq<Given>, n: nat, d: nat)
    requires 0 < n <= |given| && d < |given| && DistinctGiven(given) && given[d].name == DEFAULT_TASK_NAME
    ensures var es := Initial(given, n).entries;
      && 0 < |es|
      && es[0] == Entry(DEFAULT_TASK_NAME, if d < n then Fn(d, given[d].code) else Fn(0, given[0].code))
      && forall i :: 0 < i < |es| ==>
        exists k :: 0 <= k < n && k != d && es[i] == Entry(given[k].name, Fn(k, given[k].code))
  {
    if n == 1 {
      assert Initial(given, 0).entries == [];
    } else {
      InitialShape(given, n - 1, d);
    }
  }

  /**
    The registry built by the constructor has the alias exactly when no task function given to it is
    called "default"; with one, no other name stands for the default task function.
   */
  lemma {:induction false} InitialAliased(given: seq<Given>)
    requires 0 < |given| && DistinctGiven(given)
    ensures Aliased(Initial(given, |given|)) <==> !NamesDefault(given)
  {
    if NamesDefault(given) {
      var d :| 0 <= d < |given| && given[d].name == DEFAULT_TASK_NAME;
      InitialLosesAlias(given, |given|, d);
    } else {
      InitialEntries(given, |given|);
      var es := Initial(given, |given|).entries;
      forall i | 0 < i < |es| ensures es[i] == Entry(given[i - 1].name, Fn(i - 1, given[i - 1].code)) {
        assert es[i - 1 + 1] == Entry(given[i - 1].name, Fn(i - 1, given[i - 1].code));
      }
      assert AliasAt(es, 1);
    }
  }

  /** The argument of a worker's constructor. */
  datatype Argument =
    | Missing
    | SingleFunction(name: string, code: string)
    | PlainObject(properties: seq<Property>)
    | OtherValue

  datatype Property = Property(name: string, value: Value)

  predicate Valid(p: Property) {
    !IsBlank(p.name) && p.value.Function?
  }

  predicate DistinctProperties(ps: seq<Property>) {
    forall i, j :: 0 <= i < j < |ps| ==> ps[i].name != ps[j].name
  }

  predicate Acceptable(a: Argument) {
    match a
    case SingleFunction(_, _) => true
    case PlainObject(ps) => ps != [] && forall i :: 0 <= i < |ps| ==> Valid(ps[i])
    case _ => false
  }

  function GivenBy(a: Argument): (r: seq<Given>)
    requires Acceptable(a)
    ensures r != []
  {
    match a
    case SingleFunction(name, code) => [Given(if IsBlank(name) then "fn1" else name, code)]
    case PlainObject(ps) => Functions(ps, |ps|)
  }

  /** The first n properties, all functions. */
  function Functions(ps: seq<Property>, n: nat): (r: seq<Given>)
    requires n <= |ps|
    requires forall i :: 0 <= i < n ==> ps[i].value.Function?
    ensures |r| == n && forall i :: 0 <= i < n ==> r[i] == Given(ps[i].name, ps[i].value.code)
  {
    seq(n, i requires 0 <= i < n => Given(ps[i].name, ps[i].value.code))
  }

  lemma {:induction false} InitialPrefix(a: seq<Given>, b: seq<Given>, n: nat)
    requires n <= |a| && n <= |b| && forall i :: 0 <= i < n ==> a[i] == b[i]
    ensures Initial(a, n) == Initial(b, n)
  {
    hide Set;
    if n > 0 {
      InitialPrefix(a, b, n - 1);
    }
  }

  // ---- Listing ----

  function Without(names: seq<string>, a: string, b: string): seq<string> {
    if names == [] then []
    else
      var last := |names| - 1;
      Without(names[..last], a, b) + if names[last] == a || names[last] == b then [] else [names[last]]
  }

  ghost predicate NoDuplicates(names: seq<string>) {
    forall i, j :: 0 <= i < j < |names| ==> names[i] != names[j]
  }

  lemma {:induction false} WithoutKeeps(names: seq<string>, a: string, b: string)
    requires NoDuplicates(names)
    ensures NoDuplicates(Without(names, a, b))
    ensures forall x :: x in Without(names, a, b) <==> x in names && x != a && x != b
  {
    if names != [] {
      var last := |names| - 1;
      WithoutKeeps(names[..last], a, b);
      assert names == names[..last] + [names[last]];
      assert forall i :: 0 <= i < last ==> names[..last][i] == names[i];
      assert names[last] !in names[..last];
    }
  }

  // ---- The worker ----

  class Worker {
    var taskFunctions: seq<Entry>
    var bound: nat

    function State(): Registry
      reads this
    {
      Registry(taskFunctions, bound)
    }

    constructor ()
      ensures State() == Registry([], 0)
    {
      taskFunctions, bound := [], 0;
    }

    /**
      Fills the map from the constructor's argument. It is refused when it is missing, an empty object
      or of a wrong type, or for the first of its properties whose name is blank or value no function.
     */
    method CheckTaskFunctions(argument: Argument) returns (error: Option<Error>)
      requires argument.PlainObject? ==> DistinctProperties(argument.properties)
      modifies this
      ensures error == None <==> Acceptable(argument)
      ensures error == None ==> State() == Initial(GivenBy(argument), |GivenBy(argument)|)
      ensures error == None ==> (Aliased(State()) <==> !NamesDefault(GivenBy(argument)))
    {
      hide Aliased, Find, Set, IsBlank;
      taskFunctions, bound := [], 0;
      match argument
      case Missing =>
        return Some(Mandatory);
      case SingleFunction(name, code) =>
        bound := bound + 1;
        taskFunctions := Set(taskFunctions, DEFAULT_TASK_NAME, Fn(0, code));
        taskFunctions := Set(taskFunctions, if IsBlank(name) then "fn1" else name, Fn(0, code));
        assert Initial(GivenBy(argument), 0) == Registry([], 0);
        InitialAliased(GivenBy(argument));
        return None;
      case PlainObject(properties) =>
        error := CheckProperties(properties);
        if error == None {
          InitialAliased(GivenBy(argument));
        }
      case OtherValue =>
        return Some(NotFunctionOrObject);
    }

    method CheckProperties(properties: seq<Property>) returns (error: Option<Error>)
      requires State() == Registry([], 0)
      modifies this
      ensures error == None <==> properties != [] && forall i :: 0 <= i < |properties| ==> Valid(properties[i])
      ensures error == None ==> State() == Initial(Functions(properties, |properties|), |properties|)
      ensures properties != [] && error.Some? ==>
        exists i :: (0 <= i < |properties| && !Valid(properties[i])
          && error.value == (if IsBlank(properties[i].name) then EmptyName else NotAFunction)
          && forall j :: 0 <= j < i ==> Valid(properties[j]))
    {
      hide Find, Set, IsBlank;
      var firstEntry := true;
      for i := 0 to |properties|
        invariant firstEntry == (i == 0)
        invariant forall j :: 0 <= j < i ==> Valid(properties[j])
        invariant State() == Initial(Functions(properties, i), i)
      {
        if IsBlank(properties[i].name) {
          return Some(EmptyName);
        }
        if properties[i].value.NotFunction? {
          return Some(NotAFunction);
        }
        InitialPrefix(Functions(properties, i), Functions(properties, i + 1), i);
        var boundFn := Fn(bound, properties[i].value.code);
        bound := bound + 1;
        if firstEntry {
          taskFunctions := Set(taskFunctions, DEFAULT_TASK_NAME, boundFn);
          firstEntry := false;
        }
        taskFunctions := Set(taskFunctions, properties[i].name, boundFn);
      }
      if firstEntry {
        return Some(NoTaskFunctions);
      }
      return None;
    }

    method AddTaskFunction(name: string, value: Value) returns (result: OperationResult)
      modifies this
      ensures Applied(State(), result) == Apply(old(State()), Add(name, value))
      ensures old(Aliased(State())) ==> Aliased(State()) && (!result.status ==> State() == old(State()))
    {
      hide Aliased, Find, Get, Set, Delete, IsBlank;
      if Aliased(State()) {
        ApplyKeeps(State(), Add(name, value));
      }
      if IsBlank(name) {
        return OperationResult(false, Some(EmptyName));
      }
      if name == DEFAULT_TASK_NAME {
        return OperationResult(false, Some(ReservedName));
      }
      if value.NotFunction? {
        return OperationResult(false, Some(NotAFunction));
      }
      var boundFn := Fn(bound, value.code);
      bound := bound + 1;
      if Get(taskFunctions, name) == Get(taskFunctions, DEFAULT_TASK_NAME) {
        taskFunctions := Set(taskFunctions, DEFAULT_TASK_NAME, boundFn);
      }
      taskFunctions := Set(taskFunctions, name, boundFn);
      return OperationResult(true, None);
    }

    method RemoveTaskFunction(name: string) returns (result: OperationResult)
      modifies this
      ensures Applied(State(), result) == Apply(old(State()), Remove(name))
      ensures old(Aliased(State())) ==> Aliased(State()) && (!result.status ==> State() == old(State()))
    {
      hide Aliased, Find, Get, Set, Delete, IsBlank;
      if Aliased(State()) {
        ApplyKeeps(State(), Remove(name));
      }
      if IsBlank(name) {
        return OperationResult(false, Some(EmptyName));
      }
      if name == DEFAULT_TASK_NAME {
        return OperationResult(false, Some(ReservedName));
      }
      if Get(taskFunctions, name) == Get(taskFunctions, DEFAULT_TASK_NAME) {
        return OperationResult(false, Some(UsedAsDefault));
      }
      var deleteStatus := Find(taskFunctions, name).Some?;
      taskFunctions := Delete(taskFunctions, name);
      return OperationResult(deleteStatus, None);
    }

    method SetDefaultTaskFunction(name: string) returns (result: OperationResult)
      modifies this
      ensures Applied(State(), result) == Apply(old(State()), SetDefault(name))
      ensures old(Aliased(State())) ==> Aliased(State()) && (!result.status ==> State() == old(State()))
    {
      hide Aliased, Find, Set, Delete, IsBlank;
      if Aliased(State()) {
        ApplyKeeps(State(), SetDefault(name));
      }
      if IsBlank(name) {
        return OperationResult(false, Some(EmptyName));
      }
      if name == DEFAULT_TASK_NAME {
        return OperationResult(false, Some(ReservedName));
      }
      if Find(taskFunctions, name).None? {
        return OperationResult(false, Some(NotExisting));
      }
      taskFunctions := Set(taskFunctions, DEFAULT_TASK_NAME, Get(taskFunctions, name).value);
      return OperationResult(true, None);
    }

    /**
      The worker's side of a task function operation message: applies it and reports its status. Code
      that does not evaluate throws before that: nothing changes, and no status is ever sent.
     */
    method HandleTaskFunctionOperationMessage(message: Message) returns (response: Option<OperationResult>)
      modifies this
      ensures message.Unevaluable? ==> response == None && State() == old(State())
      ensures message.Message? ==>
        response.Some? && Applied(State(), response.value) == Apply(old(State()), message.operation)
      ensures old(Aliased(State())) ==>
        Aliased(State()) && (response == None || !response.value.status ==> State() == old(State()))
    {
      if message.Unevaluable? {
        return None;
      }
      var result: OperationResult;
      match message.operation {
        case Add(name, value) => result := AddTaskFunction(name, value);
        case Remove(name) => result := RemoveTaskFunction(name);
        case SetDefault(name) => result := SetDefaultTaskFunction(name);
        case Unknown(_) => result := OperationResult(false, Some(UnknownOperation));
      }
      return Some(result);
    }

    /**
      Lists "default" first, then the name it stands for, then the others in insertion order. Every
      name is listed once exactly when "default" stands for another name; otherwise it comes twice.
     */
    method ListTaskFunctionNames() returns (names: seq<string>)
      requires taskFunctions != [] && taskFunctions[0].name == DEFAULT_TASK_NAME && DistinctNames(taskFunctions)
      ensures |names| >= 2 && names[0] == DEFAULT_TASK_NAME
      ensures Get(taskFunctions, names[1]) == Get(taskFunctions, DEFAULT_TASK_NAME)
      ensures names[1] != DEFAULT_TASK_NAME <==> exists i :: AliasAt(taskFunctions, i)
      ensures NoDuplicates(names) <==> exists i :: AliasAt(taskFunctions, i)
      ensures forall x :: x in names <==> Find(taskFunctions, x).Some?
      ensures names[2..] == Without(Names(taskFunctions), DEFAULT_TASK_NAME, names[1])
    {
      hide Find, Without;
      var all := Names(taskFunctions);
      var defaultTaskFunctionName := DEFAULT_TASK_NAME;
      FindAt(taskFunctions, 0);
      var i := 0;
      while i < |taskFunctions|
        invariant 0 <= i <= |taskFunctions|
        invariant forall j :: AliasAt(taskFunctions, j) ==> j >= i
        invariant defaultTaskFunctionName == DEFAULT_TASK_NAME
      {
        if taskFunctions[i].name != DEFAULT_TASK_NAME
          && Some(taskFunctions[i].fn) == Get(taskFunctions, DEFAULT_TASK_NAME)
        {
          defaultTaskFunctionName := taskFunctions[i].name;
          FindAt(taskFunctions, i);
          assert AliasAt(taskFunctions, i);
          break;
        }
        i := i + 1;
      }
      var others := Without(all, DEFAULT_TASK_NAME, defaultTaskFunctionName);
      WithoutKeeps(all, DEFAULT_TASK_NAME, defaultTaskFunctionName);
      names := [DEFAULT_TASK_NAME, defaultTaskFunctionName] + others;
      ListedOnce(DEFAULT_TASK_NAME, defaultTaskFunctionName, others);
      forall x ensures x in names <==> Find(taskFunctions, x).Some? {
        ListedIffFound(taskFunctions, x);
      }
    }
  }

  lemma ListedOnce(first: string, second: string, others: seq<string>)
    requires NoDuplicates(others) && first !in others && second !in others
    ensures NoDuplicates([first, second] + others) <==> first != second
  {
    var names := [first, second] + others;
    forall i | 0 <= i < |others| ensures others[i] != first && others[i] != second {
    }
    assert names[0] == first && names[1] == second;
  }
}
