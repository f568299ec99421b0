// The UsingMulti macro of LeMP: `using System(, .Collections.Generic, .Text);`
// becomes one `using` per namespace. A syntax tree is an identifier, a
// literal or a call of a target on arguments; only the node kinds the macro
// looks at are named, all other identifiers carry their text.
//
// GetNamespaces builds a lazy enumeration (SelectMany and Select): each name
// is merged below every enclosing target as soon as it is produced, and the
// macro's consumer stops at the first LogException. The model gives the
// enumeration as the sequence of what producing each name gives, the name
// (Ok) or the exception (Err); Collect is the consumer.
module UsingMulti {
  import opened Wrappers

  datatype Name = Dot | Of | Import | Splice | Braces | Missing | Ident(text: string)

  datatype Node =
    | Id(name: Name)
    | Literal(text: string)
    | Call(target: Node, args: seq<Node>)

  // n.Calls(name): a call whose target is that identifier, any arity.
  predicate Calls(n: Node, name: Name)
  {
    n.Call? && n.target == Id(name)
  }

  // n.Calls(name, arity)
  predicate CallsWith(n: Node, name: Name, arity: nat)
  {
    Calls(n, name) && |n.args| == arity
  }

  function DotOf(left: Node, right: Node): Node
  {
    Call(Id(Dot), [left, right])
  }

  // m is root itself or a two-argument dot whose left operand is below root:
  // root is at the head of m's dotted spine.
  predicate Below(root: Node, m: Node)
  {
    m == root || (CallsWith(m, Dot, 2) && Below(root, m.args[0]))
  }

  // MergeIdentifiers(left, right): attaches the relative name right below
  // left. Err carries the node the LogException is about: the first node on
  // right's left spine that is neither Missing nor a dot.
  function MergeIdentifiers(left: Option<Node>, right: Node): (r: Result<Node, Node>)
    ensures left.None? ==> r == Ok(right)
    ensures left.Some? && r.Ok? ==> Below(left.value, r.value)
    ensures r.Err? ==> left.Some? && (r.error == right || r.error < right)
    ensures r.Err? ==> r.error != Id(Missing) && !CallsWith(r.error, Dot, 1) && !CallsWith(r.error, Dot, 2)
  {
    if left.None? then Ok(right)
    else if right == Id(Missing) then Ok(left.value)
    else if CallsWith(right, Dot, 1) then Ok(DotOf(left.value, right.args[0]))
    else if CallsWith(right, Dot, 2) then
      var inner := MergeIdentifiers(left, right.args[0]);
      if inner.Err? then inner else Ok(DotOf(inner.value, right.args[1]))
    else Err(right)
  }

  // The arguments GetNamespaces expands: those of a single braced argument
  // in place of that argument (`Namespace { a; b; }`).
  function NamespaceArgs(n: Node): (args: seq<Node>)
    requires n.Call?
    ensures forall a :: a in args ==> a < n
  {
    if |n.args| == 1 && Calls(n.args[0], Braces) then n.args[0].args else n.args
  }

  // GetNamespaces(multiName): None (null) for a Dot or Of call and for
  // anything that is not a call; otherwise the names the enumeration yields,
  // each below n's target.
  function GetNamespaces(n: Node): (r: Option<seq<Result<Node, Node>>>)
    ensures r.None? <==> !n.Call? || Calls(n, Dot) || Calls(n, Of)
    ensures r.Some? ==> forall k :: 0 <= k < |r.value| && r.value[k].Ok? ==> Below(n.target, r.value[k].value)
    decreases n, 2
  {
    if !n.Call? || Calls(n, Dot) || Calls(n, Of) then None
    else Some(ExpandArgs(n, 0))
  }

  // The SelectMany lambda: `GetNamespaces(arg) ?? ListExt.Single(arg)`.
  function ArgNames(a: Node): seq<Result<Node, Node>>
    decreases a, 3
  {
    var sub := GetNamespaces(a);
    if sub.None? then [Ok(a)] else sub.value
  }

  // The enumeration over NamespaceArgs(n)[i..]: the names of each argument,
  // each merged below n's target, argument after argument.
  function ExpandArgs(n: Node, i: nat): (r: seq<Result<Node, Node>>)
    requires n.Call? && i <= |NamespaceArgs(n)|
    ensures forall k :: 0 <= k < |r| && r[k].Ok? ==> Below(n.target, r[k].value)
    decreases n, 1, |NamespaceArgs(n)| - i
  {
    var args := NamespaceArgs(n);
    if i == |args| then []
    else
      var head := MergeAll(n.target, ArgNames(args[i]));
      var rest := ExpandArgs(n, i + 1);
      assert forall k :: 0 <= k < |head + rest| ==> (head + rest)[k] == if k < |head| then head[k] else rest[k - |head|];
      head + rest
  }

  // Select(subNS => MergeIdentifiers(outer, subNS)): each name produced is
  // merged; a name whose production threw stays that exception.
  function MergeAll(outer: Node, items: seq<Result<Node, Node>>): (r: seq<Result<Node, Node>>)
    ensures |r| == |items|
    ensures forall k :: 0 <= k < |items| ==>
      r[k] == (if items[k].Ok? then MergeIdentifiers(Some(outer), items[k].value) else items[k])
    ensures forall k :: 0 <= k < |r| && r[k].Ok? ==> Below(outer, r[k].value)
  {
    if items == [] then []
    else
      var m := if items[0].Ok? then MergeIdentifiers(Some(outer), items[0].value) else items[0];
      [m] + MergeAll(outer, items[1..])
  }

  // Enumerating to the end: every name, or the first exception met.
  function Collect(items: seq<Result<Node, Node>>): (r: Result<seq<Node>, Node>)
    ensures r.Ok? <==> forall k :: 0 <= k < |items| ==> items[k].Ok?
    ensures r.Ok? ==> |r.value| == |items| && forall k :: 0 <= k < |items| ==> items[k] == Ok(r.value[k])
    ensures r.Err? ==> exists k :: 0 <= k < |items| && items[k] == Err(r.error) && forall j :: 0 <= j < k ==> items[j].Ok?
  {
    if items == [] then Ok([])
    else if items[0].Err? then Err(items[0].error)
    else
      var rest := Collect(items[1..]);
      if rest.Err? then
        var k :| 0 <= k < |items[1..]| && items[1..][k] == Err(rest.error) && forall j :: 0 <= j < k ==> items[1..][j].Ok?;
        assert items[k + 1] == Err(rest.error);
        assert forall j :: 0 <= j < k + 1 ==> items[j].Ok? by {
          forall j | 0 <= j < k + 1 ensures items[j].Ok? {
            if j > 0 { assert items[j] == items[1..][j - 1]; }
          }
        }
        rest
      else
        var r := Ok([items[0].value] + rest.value);
        assert forall k :: 0 <= k < |items| ==> items[k] == Ok(r.value[k]) by {
          forall k | 0 <= k < |items| ensures items[k] == Ok(r.value[k]) {
            if k > 0 { assert items[k] == items[1..][k - 1]; }
          }
        }
        r
  }

  // Enumerating names that are all produced without an exception gives
  // them all.
  lemma CollectOk(items: seq<Result<Node, Node>>, names: seq<Node>)
    requires |items| == |names| && forall k :: 0 <= k < |items| ==> items[k] == Ok(names[k])
    ensures Collect(items) == Ok(names)
  {
    assert Collect(items).value == names;
  }

  // What the macro gives back: no result (null), a splice of imports, or a
  // note on a malformed name and no result.
  datatype MacroResult = NotApplied | Applied(output: Node) | Malformed(at: Node)

  function Imports(names: seq<Node>): (r: seq<Node>)
    ensures |r| == |names|
    ensures forall j :: 0 <= j < |names| ==> r[j] == Call(Id(Import), [names[j]])
  {
    if names == [] then [] else [Call(Id(Import), [names[0]])] + Imports(names[1..])
  }

  // UsingMulti(input): applies to a one-argument `using` whose argument
  // expands; LNode.List enumerates the names, and the first LogException
  // becomes the note.
  function UsingMultiMacro(input: Node): (r: MacroResult)
    ensures !CallsWith(input, Import, 1) ==> r == NotApplied
    ensures CallsWith(input, Import, 1) ==>
      match GetNamespaces(input.args[0])
      case None => r == NotApplied
      case Some(items) =>
        match Collect(items)
        case Err(at) => r == Malformed(at)
        case Ok(names) => r == Applied(Call(Id(Splice), Imports(names)))
  {
    if !CallsWith(input, Import, 1) then NotApplied
    else
      var list := GetNamespaces(input.args[0]);
      if list.None? then NotApplied
      else
        var names := Collect(list.value);
        if names.Err? then Malformed(names.error)
        else Applied(Call(Id(Splice), Imports(names.value)))
  }

  // ---------------------------------------------------------------------------
  // What the expansion means on dotted names.

  // A namespace name: `A`, `A.B`, `A.B.C`, ...
  predicate Absolute(n: Node)
  {
    match n
    case Id(name) => name.Ident?
    case Literal(_) => false
    case Call(t, args) => t == Id(Dot) && |args| == 2 && Absolute(args[0]) && args[1].Id? && args[1].name.Ident?
  }

  // A name relative to the one before the parentheses: empty (Missing),
  // `.B`, `.B.C`, ...
  predicate Relative(n: Node)
  {
    match n
    case Id(name) => name == Missing
    case Literal(_) => false
    case Call(t, args) =>
      t == Id(Dot) && 1 <= |args| <= 2 &&
      (if |args| == 1 then args[0].Id? && args[0].name.Ident?
       else Relative(args[0]) && args[1].Id? && args[1].name.Ident?)
  }

  // An absolute name when absolute holds, a relative one otherwise.
  predicate NameKind(absolute: bool, n: Node)
  {
    if absolute then Absolute(n) else Relative(n)
  }

  // The identifiers of a name, outermost first.
  function Parts(n: Node): seq<string>
  {
    match n
    case Id(name) => if name.Ident? then [name.text] else []
    case Literal(_) => []
    case Call(_, args) => if |args| == 1 then Parts(args[0]) else if |args| == 2 then Parts(args[0]) + Parts(args[1]) else []
  }

  // Merging a relative name below a namespace gives a namespace whose parts
  // are the two lists of parts one after the other; below a relative name
  // (a nested group's target) it gives a relative name in the same way.
  lemma {:induction false} MergeRelative(absolute: bool, left: Node, right: Node)
    requires NameKind(absolute, left) && Relative(right)
    ensures MergeIdentifiers(Some(left), right).Ok?
    ensures NameKind(absolute, MergeIdentifiers(Some(left), right).value)
    ensures Parts(MergeIdentifiers(Some(left), right).value) == Parts(left) + Parts(right)
  {
    if right == Id(Missing) {
      assert Parts(right) == [];
      assert Parts(left) + [] == Parts(left);
    } else if |right.args| == 2 {
      MergeRelative(absolute, left, right.args[0]);
      var inner := MergeIdentifiers(Some(left), right.args[0]).value;
      assert Parts(DotOf(inner, right.args[1])) == Parts(inner) + Parts(right.args[1]);
    }
  }

  // A name written without a leading dot inside the parentheses is malformed:
  // `using System(Linq);` is rejected with the note on `Linq`.
  lemma PlainNameMalformed(outer: Node, s: string)
    ensures MergeIdentifiers(Some(outer), Id(Ident(s))) == Err(Id(Ident(s)))
    ensures !Calls(Call(outer, [Id(Ident(s))]), Dot) && !Calls(Call(outer, [Id(Ident(s))]), Of) ==>
      UsingMultiMacro(Call(Id(Import), [Call(outer, [Id(Ident(s))])])) == Malformed(Id(Ident(s)))
  {
    var n := Call(outer, [Id(Ident(s))]);
    assert NamespaceArgs(n) == [Id(Ident(s))];
    assert ArgNames(Id(Ident(s))) == [Ok(Id(Ident(s)))];
    assert ExpandArgs(n, 1) == [];
    assert ExpandArgs(n, 0) == [Err(Id(Ident(s)))];
  }

  // Each of items is an argument of args merged below target, as a name of
  // the given kind.
  predicate MergedBelow(absolute: bool, target: Node, args: seq<Node>, items: seq<Result<Node, Node>>)
  {
    |items| == |args| &&
    forall j :: 0 <= j < |items| ==>
      items[j].Ok? && NameKind(absolute, items[j].value) && Parts(items[j].value) == Parts(target) + Parts(args[j])
  }

  // One argument that does not expand contributes its own name, merged,
  // ahead of the rest.
  lemma ExpandArgsStep(n: Node, i: nat)
    requires n.Call? && i < |NamespaceArgs(n)|
    requires GetNamespaces(NamespaceArgs(n)[i]).None?
    ensures ExpandArgs(n, i) ==
      [MergeIdentifiers(Some(n.target), NamespaceArgs(n)[i])] + ExpandArgs(n, i + 1)
  {
    var a := NamespaceArgs(n)[i];
    assert ArgNames(a) == [Ok(a)];
    assert MergeAll(n.target, [Ok(a)]) == [MergeIdentifiers(Some(n.target), a)];
  }

  // For a name followed by a list of relative names, the expansion has one
  // name per argument, each the target's parts followed by the argument's,
  // and of the target's kind.
  lemma {:induction false} ExpandFlat(absolute: bool, n: Node, i: nat)
    requires n.Call? && NameKind(absolute, n.target) && i <= |NamespaceArgs(n)|
    requires forall a :: a in NamespaceArgs(n) ==> Relative(a)
    ensures MergedBelow(absolute, n.target, NamespaceArgs(n)[i..], ExpandArgs(n, i))
    decreases |NamespaceArgs(n)| - i
  {
    var args := NamespaceArgs(n);
    if i < |args| {
      var a := args[i];
      assert Relative(a);
      assert GetNamespaces(a).None?;
      MergeRelative(absolute, n.target, a);
      ExpandFlat(absolute, n, i + 1);
      ExpandArgsStep(n, i);
      assert args[i..] == [a] + args[i + 1..];
      MergedCons(absolute, n.target, a, args[i + 1..], MergeIdentifiers(Some(n.target), a), ExpandArgs(n, i + 1));
    } else {
      assert args[i..] == [];
    }
  }

  lemma MergedCons(absolute: bool, target: Node, a: Node, args: seq<Node>, m: Result<Node, Node>, items: seq<Result<Node, Node>>)
    requires m.Ok? && NameKind(absolute, m.value) && Parts(m.value) == Parts(target) + Parts(a)
    requires MergedBelow(absolute, target, args, items)
    ensures MergedBelow(absolute, target, [a] + args, [m] + items)
  {
    forall j | 0 <= j < |items| + 1
      ensures ([m] + items)[j].Ok? && NameKind(absolute, ([m] + items)[j].value)
           && Parts(([m] + items)[j].value) == Parts(target) + Parts(([a] + args)[j])
    {
      if j > 0 {
        assert ([m] + items)[j] == items[j - 1] && ([a] + args)[j] == args[j - 1];
      }
    }
  }

  // A nested group below a namespace, such as `.Collections(.Generic,
  // .Specialized)` inside `using System(...)`: a call whose target and
  // arguments are relative names. Each of its arguments gives one namespace,
  // whose parts are the outer namespace's, the group target's and the
  // argument's.
  lemma NestedGroup(outer: Node, g: Node)
    requires Absolute(outer) && g.Call? && Relative(g.target)
    requires forall a :: a in NamespaceArgs(g) ==> Relative(a)
    ensures GetNamespaces(g).Some?
    ensures var out := MergeAll(outer, ArgNames(g));
      |out| == |NamespaceArgs(g)| &&
      forall j :: 0 <= j < |out| ==>
        out[j].Ok? && Absolute(out[j].value) &&
        Parts(out[j].value) == Parts(outer) + Parts(g.target) + Parts(NamespaceArgs(g)[j])
  {
    GroupItems(g);
    var items := ArgNames(g);
    var out := MergeAll(outer, items);
    forall j | 0 <= j < |out|
      ensures out[j].Ok? && Absolute(out[j].value)
      ensures Parts(out[j].value) == Parts(outer) + Parts(g.target) + Parts(NamespaceArgs(g)[j])
    {
      MergeBelowOuter(outer, items[j].value, Parts(g.target), Parts(NamespaceArgs(g)[j]));
    }
  }

  // The names a group of relative names yields: each argument merged below
  // the group's relative target.
  lemma GroupItems(g: Node)
    requires g.Call? && Relative(g.target)
    requires forall a :: a in NamespaceArgs(g) ==> Relative(a)
    ensures GetNamespaces(g).Some?
    ensures MergedBelow(false, g.target, NamespaceArgs(g), ArgNames(g))
  {
    assert !Calls(g, Dot) && !Calls(g, Of);
    ExpandFlat(false, g, 0);
    assert NamespaceArgs(g)[0..] == NamespaceArgs(g);
  }

  // One relative name merged below an absolute one.
  lemma MergeBelowOuter(outer: Node, m: Node, t: seq<string>, a: seq<string>)
    requires Absolute(outer) && Relative(m) && Parts(m) == t + a
    ensures MergeIdentifiers(Some(outer), m).Ok? && Absolute(MergeIdentifiers(Some(outer), m).value)
    ensures Parts(MergeIdentifiers(Some(outer), m).value) == Parts(outer) + t + a
  {
    MergeRelative(true, outer, m);
    assert Parts(outer) + (t + a) == Parts(outer) + t + a;
  }

  // The example the macro documents:
  // using System(, .Collections.Generic, .Linq, .Text);
  lemma DocumentedExample()
    ensures
      var system := Id(Ident("System"));
      var generic := DotOf(Call(Id(Dot), [Id(Ident("Collections"))]), Id(Ident("Generic")));
      var linq := Call(Id(Dot), [Id(Ident("Linq"))]);
      var text := Call(Id(Dot), [Id(Ident("Text"))]);
      var input := Call(Id(Import), [Call(system, [Id(Missing), generic, linq, text])]);
      UsingMultiMacro(input) == Applied(Call(Id(Splice), Imports([
        system,
        DotOf(DotOf(system, Id(Ident("Collections"))), Id(Ident("Generic"))),
        DotOf(system, Id(Ident("Linq"))),
        DotOf(system, Id(Ident("Text")))])))
  {
    var system := Id(Ident("System"));
    var generic := DotOf(Call(Id(Dot), [Id(Ident("Collections"))]), Id(Ident("Generic")));
    var linq := Call(Id(Dot), [Id(Ident("Linq"))]);
    var text := Call(Id(Dot), [Id(Ident("Text"))]);
    var n := Call(system, [Id(Missing), generic, linq, text]);
    assert NamespaceArgs(n) == [Id(Missing), generic, linq, text];
    assert ExpandArgs(n, 4) == [];
    assert GetNamespaces(text).None?;
    ExpandArgsStep(n, 3);
    assert GetNamespaces(linq).None?;
    ExpandArgsStep(n, 2);
    assert GetNamespaces(generic).None?;
    assert MergeIdentifiers(Some(system), generic) == Ok(DotOf(DotOf(system, Id(Ident("Collections"))), Id(Ident("Generic"))));
    ExpandArgsStep(n, 1);
    assert GetNamespaces(Id(Missing)).None?;
    ExpandArgsStep(n, 0);
    var names := [system, DotOf(DotOf(system, Id(Ident("Collections"))), Id(Ident("Generic"))),
                  DotOf(system, Id(Ident("Linq"))), DotOf(system, Id(Ident("Text")))];
    assert ExpandArgs(n, 0) == [Ok(names[0]), Ok(names[1]), Ok(names[2]), Ok(names[3])];
    CollectOk(ExpandArgs(n, 0), names);
  }

  // A nested group: using System(.Collections(.Generic, .Specialized), .Linq);
  // gives System.Collections.Generic, System.Collections.Specialized and
  // System.Linq.
  lemma NestedExample()
    ensures
      var system := Id(Ident("System"));
      var collections := Call(Id(Dot), [Id(Ident("Collections"))]);
      var group := Call(collections, [Call(Id(Dot), [Id(Ident("Generic"))]), Call(Id(Dot), [Id(Ident("Specialized"))])]);
      var input := Call(Id(Import), [Call(system, [group, Call(Id(Dot), [Id(Ident("Linq"))])])]);
      UsingMultiMacro(input) == Applied(Call(Id(Splice), Imports([
        DotOf(DotOf(system, Id(Ident("Collections"))), Id(Ident("Generic"))),
        DotOf(DotOf(system, Id(Ident("Collections"))), Id(Ident("Specialized"))),
        DotOf(system, Id(Ident("Linq")))])))
  {
    var system := Id(Ident("System"));
    var collections := Call(Id(Dot), [Id(Ident("Collections"))]);
    var generic := Call(Id(Dot), [Id(Ident("Generic"))]);
    var specialized := Call(Id(Dot), [Id(Ident("Specialized"))]);
    var linq := Call(Id(Dot), [Id(Ident("Linq"))]);
    var group := Call(collections, [generic, specialized]);
    var n := Call(system, [group, linq]);
    assert NamespaceArgs(group) == [generic, specialized];
    assert ExpandArgs(group, 2) == [];
    ExpandArgsStep(group, 1);
    ExpandArgsStep(group, 0);
    assert ExpandArgs(group, 0) == [Ok(DotOf(collections, Id(Ident("Generic")))), Ok(DotOf(collections, Id(Ident("Specialized"))))];
    assert ArgNames(group) == ExpandArgs(group, 0);
    var names := [DotOf(DotOf(system, Id(Ident("Collections"))), Id(Ident("Generic"))),
                  DotOf(DotOf(system, Id(Ident("Collections"))), Id(Ident("Specialized"))),
                  DotOf(system, Id(Ident("Linq")))];
    assert MergeAll(system, ArgNames(group)) == [Ok(names[0]), Ok(names[1])];
    assert NamespaceArgs(n) == [group, linq];
    assert ExpandArgs(n, 2) == [];
    ExpandArgsStep(n, 1);
    assert ExpandArgs(n, 0) == [Ok(names[0]), Ok(names[1]), Ok(names[2])];
    CollectOk(ExpandArgs(n, 0), names);
  }

  // Names are merged as they are produced: in `using A(B(.C, D));` the first
  // name, B.C, is merged below A before D is looked at, and the note is on
  // B (B.C has no leading dot below A), not on D.
  lemma LazyMergeOrder()
    ensures
      var b := Id(Ident("B"));
      var input := Call(Id(Import), [Call(Id(Ident("A")), [Call(b, [Call(Id(Dot), [Id(Ident("C"))]), Id(Ident("D"))])])]);
      UsingMultiMacro(input) == Malformed(b)
  {
    var a := Id(Ident("A"));
    var b := Id(Ident("B"));
    var c := Call(Id(Dot), [Id(Ident("C"))]);
    var d := Id(Ident("D"));
    var group := Call(b, [c, d]);
    var n := Call(a, [group]);
    assert NamespaceArgs(group) == [c, d];
    assert ExpandArgs(group, 2) == [];
    ExpandArgsStep(group, 1);
    ExpandArgsStep(group, 0);
    assert ExpandArgs(group, 0) == [Ok(DotOf(b, Id(Ident("C")))), Err(d)];
    assert ArgNames(group) == ExpandArgs(group, 0);
    assert MergeIdentifiers(Some(a), DotOf(b, Id(Ident("C")))) == Err(b);
    assert MergeAll(a, ArgNames(group)) == [Err(b), Err(d)];
    assert NamespaceArgs(n) == [group];
    assert ExpandArgs(n, 1) == [];
    assert ExpandArgs(n, 0) == [Err(b), Err(d)];
    assert Collect(ExpandArgs(n, 0)) == Err(b);
  }
}
