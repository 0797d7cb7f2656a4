/**
 The scan of documented configuration trees for commands inside `config ... end`.

 A documentation line is already reduced to the command it shows, if any: its normalised syntax and its literal
 path (letters, digits, `_`, `-` and single blanks).
 */
module ScopeScanner {
  import opened Text

  datatype Kind = NoCommand | Config | End | Command(verb: string)

  /** `key` is the literal path reduced to the characters topics are matched on. */
  datatype Line = Line(number: nat, kind: Kind, syntax: string, path: string, key: string)

  datatype Definition = Definition(scope: string, syntax: string, path: string, line: nat, destructive: bool)

  type Key = (string, string)

  const SEPARATOR := " > "

  function Scope(stack: seq<string>): string
  {
    Join(stack, SEPARATOR)
  }

  function Define(stack: seq<string>, line: Line): Definition
  {
    var destructive := line.kind.Command? && (line.kind.verb == "delete" || line.kind.verb == "purge");
    Definition(Scope(stack), line.syntax, line.path, line.number, destructive)
  }

  /** What is recorded of a line: its texts and number under the joined scopes, destructive exactly for deletions. */
  lemma DefinedAs(stack: seq<string>, line: Line)
    ensures var d := Define(stack, line);
            && d.scope == Join(stack, " > ") && d.syntax == line.syntax && d.path == line.path && d.line == line.number
            && (d.destructive <==> line.kind == Command("delete") || line.kind == Command("purge"))
  {
  }

  function KeyOf(d: Definition): Key
  {
    (d.scope, d.syntax)
  }

  /** A `delete` in running prose, not a command. */
  predicate Prose(line: Line)
  {
    line.kind == Command("delete") && EndsWith(line.syntax, ".")
  }

  datatype Scan = Scan(definitions: seq<Definition>, seen: set<Key>)
  {
    /** Record a definition unless its key was seen. */
    function Add(d: Definition): Scan
    {
      if KeyOf(d) in seen then this else Scan(definitions + [d], seen + {KeyOf(d)})
    }

    function AddAll(ds: seq<Definition>): Scan
      decreases |ds|
    {
      if ds == [] then this else Add(ds[0]).AddAll(ds[1..])
    }
  }

  /** The scan of the lines below a root, from a given stack of open scopes. */
  function ScanLines(rootKey: string, stack: seq<string>, lines: seq<Line>, scan: Scan): Scan
    requires stack != []
    decreases |lines|
  {
    if lines == [] then scan
    else
      var line, rest := lines[0], lines[1..];
      match line.kind
      case NoCommand => ScanLines(rootKey, stack, rest, scan)
      case Config =>
        if line.key == rootKey then ScanLines(rootKey, stack, rest, scan)
        else ScanLines(rootKey, stack + [line.path], rest, scan.Add(Define(stack, line)))
      case End =>
        var popped := stack[..|stack| - 1];
        if popped == [] then scan.Add(Define(stack, line))
        else ScanLines(rootKey, popped, rest, scan.Add(Define(stack, line)))
      case Command(_) =>
        if Prose(line) then ScanLines(rootKey, stack, rest, scan)
        else ScanLines(rootKey, stack, rest, scan.Add(Define(stack, line)))
  }

  /** One root topic and the documentation lines up to the next root. */
  datatype Root = Root(path: string, key: string, lines: seq<Line>)

  function ScanRoots(roots: seq<Root>, scan: Scan): Scan
    decreases |roots|
  {
    if roots == [] then scan
    else ScanRoots(roots[1..], ScanLines(roots[0].key, [roots[0].path], roots[0].lines, scan))
  }

  /** The stack is never empty where the source tests it, so those tests are left out here. */
  method ContextDefinitions(roots: seq<Root>) returns (definitions: seq<Definition>)
    ensures definitions == ScanRoots(roots, Scan([], {})).definitions
  {
    definitions := [];
    var seen: set<Key> := {};
    var r := 0;
    while r < |roots|
      invariant 0 <= r <= |roots|
      invariant ScanRoots(roots[r..], Scan(definitions, seen)) == ScanRoots(roots, Scan([], {}))
    {
      definitions, seen := ScanRoot(roots[r], definitions, seen);
      assert roots[r..][1..] == roots[r + 1..];
      r := r + 1;
    }
  }

  method ScanRoot(root: Root, before: seq<Definition>, seenBefore: set<Key>)
    returns (definitions: seq<Definition>, seen: set<Key>)
    ensures Scan(definitions, seen) == ScanLines(root.key, [root.path], root.lines, Scan(before, seenBefore))
  {
    definitions, seen := before, seenBefore;
    var stack, i := [root.path], 0;
    while i < |root.lines|
      invariant 0 <= i <= |root.lines| && stack != []
      invariant ScanLines(root.key, stack, root.lines[i..], Scan(definitions, seen))
                == ScanLines(root.key, [root.path], root.lines, Scan(before, seenBefore))
    {
      var line := root.lines[i];
      assert root.lines[i..][1..] == root.lines[i + 1..];
      i := i + 1;
      if line.kind == NoCommand { continue; }
      if line.kind == Config && line.key == root.key { continue; }
      if Prose(line) { continue; }
      var d := Define(stack, line);
      if KeyOf(d) !in seen {
        seen := seen + {KeyOf(d)};
        definitions := definitions + [d];
      }
      if line.kind == Config {
        stack := stack + [line.path];
      } else if line.kind == End {
        stack := stack[..|stack| - 1];
        if stack == [] { break; }
      }
    }
  }

  /* ---------- Documented trees ---------- */

  /** A line that is not structural, or a nested `config ... end`. */
  datatype Node = Leaf(line: Line) | Sub(open: Line, children: seq<Node>, close: Line)

  function NodeLines(nodes: seq<Node>): seq<Line>
    decreases nodes
  {
    if nodes == [] then []
    else
      (match nodes[0]
       case Leaf(line) => [line]
       case Sub(open, children, close) => [open] + NodeLines(children) + [close])
      + NodeLines(nodes[1..])
  }

  /** Leaves may repeat the root's own `config` line, which the scan skips; nested blocks may not carry its key. */
  predicate WellNested(rootKey: string, nodes: seq<Node>)
    decreases nodes
  {
    nodes != [] ==>
      && (match nodes[0]
          case Leaf(line) => !line.kind.End? && (line.kind.Config? ==> line.key == rootKey)
          case Sub(open, children, close) =>
            open.kind.Config? && open.key != rootKey && close.kind.End? && WellNested(rootKey, children))
      && WellNested(rootKey, nodes[1..])
  }

  /** The commands of a tree in preorder, each under the path of its enclosing `config`s. */
  function Preorder(stack: seq<string>, nodes: seq<Node>): seq<Definition>
    decreases nodes
  {
    if nodes == [] then []
    else
      (match nodes[0]
       case Leaf(line) => if line.kind.Command? && !Prose(line) then [Define(stack, line)] else []
       case Sub(open, children, close) =>
         var inner := stack + [open.path];
         [Define(stack, open)] + Preorder(inner, children) + [Define(inner, close)])
      + Preorder(stack, nodes[1..])
  }

  lemma {:induction false} AddAllAppend(scan: Scan, a: seq<Definition>, b: seq<Definition>)
    ensures scan.AddAll(a + b) == scan.AddAll(a).AddAll(b)
    decreases |a|
  {
    if a == [] {
      assert a + b == b;
    } else {
      assert (a + b)[1..] == a[1..] + b;
      AddAllAppend(scan.Add(a[0]), a[1..], b);
    }
  }

  lemma AddAllOne(scan: Scan, d: Definition)
    ensures scan.AddAll([d]) == scan.Add(d)
  {
  }

  /** Scanning a well-nested stretch records its preorder and leaves the stack as it was. */
  lemma {:induction false} ScansNodes(rootKey: string, stack: seq<string>, nodes: seq<Node>, rest: seq<Line>, scan: Scan)
    requires stack != [] && WellNested(rootKey, nodes)
    ensures ScanLines(rootKey, stack, NodeLines(nodes) + rest, scan)
            == ScanLines(rootKey, stack, rest, scan.AddAll(Preorder(stack, nodes)))
    decreases nodes, 0
  {
    if nodes == [] {
      assert NodeLines(nodes) + rest == rest;
    } else {
      var later := NodeLines(nodes[1..]) + rest;
      var tail := Preorder(stack, nodes[1..]);
      match nodes[0]
      case Leaf(line) =>
        assert NodeLines(nodes) + rest == [line] + later && ([line] + later)[1..] == later;
        var head := if line.kind.Command? && !Prose(line) then [Define(stack, line)] else [];
        if head != [] { AddAllOne(scan, head[0]); }
        AddAllAppend(scan, head, tail);
        ScansNodes(rootKey, stack, nodes[1..], rest, scan.AddAll(head));
      case Sub(open, children, close) =>
        ScansSub(rootKey, stack, open, children, close, later, scan);
        var inner := stack + [open.path];
        var body := Preorder(inner, children);
        assert NodeLines(nodes) + rest == [open] + NodeLines(children) + [close] + later;
        var head := [Define(stack, open)] + body + [Define(inner, close)];
        AddAllAppend(scan, head, tail);
        ScansNodes(rootKey, stack, nodes[1..], rest, scan.AddAll(head));
    }
  }

  lemma {:induction false} ScansSub(
    rootKey: string, stack: seq<string>, open: Line, children: seq<Node>, close: Line, later: seq<Line>, scan: Scan)
    requires stack != [] && WellNested(rootKey, children)
    requires open.kind.Config? && open.key != rootKey && close.kind.End?
    ensures var inner := stack + [open.path];
            ScanLines(rootKey, stack, [open] + NodeLines(children) + [close] + later, scan)
            == ScanLines(rootKey, stack, later,
                         scan.AddAll([Define(stack, open)] + Preorder(inner, children) + [Define(inner, close)]))
    decreases children, 1
  {
    var inner, body := stack + [open.path], Preorder(stack + [open.path], children);
    var all := [open] + NodeLines(children) + [close] + later;
    assert all[0] == open && all[1..] == NodeLines(children) + ([close] + later);
    var entered := scan.Add(Define(stack, open));
    ScansNodes(rootKey, inner, children, [close] + later, entered);
    assert ([close] + later)[1..] == later && inner[..|inner| - 1] == stack;
    AddAllOne(scan, Define(stack, open));
    AddAllAppend(scan, [Define(stack, open)], body);
    AddAllOne(entered.AddAll(body), Define(inner, close));
    AddAllAppend(scan, [Define(stack, open)] + body, [Define(inner, close)]);
  }

  /** A root's documented tree: its body, the closing `end`, and whatever reference text follows. */
  datatype Tree = Tree(path: string, key: string, body: seq<Node>, close: Line, after: seq<Line>)

  predicate WellNestedTree(t: Tree)
  {
    WellNested(t.key, t.body) && t.close.kind.End?
  }

  function TreeRoot(t: Tree): Root
  {
    Root(t.path, t.key, NodeLines(t.body) + [t.close] + t.after)
  }

  function Listing(t: Tree): seq<Definition>
  {
    Preorder([t.path], t.body) + [Define([t.path], t.close)]
  }

  function Listings(trees: seq<Tree>): seq<Definition>
  {
    if trees == [] then [] else Listing(trees[0]) + Listings(trees[1..])
  }

  function TreeRoots(trees: seq<Tree>): seq<Root>
  {
    if trees == [] then [] else [TreeRoot(trees[0])] + TreeRoots(trees[1..])
  }

  /** The scan stops at the root's own `end`; nothing after it is recorded. */
  lemma ScansTree(t: Tree, scan: Scan)
    requires WellNestedTree(t)
    ensures ScanLines(t.key, [t.path], TreeRoot(t).lines, scan) == scan.AddAll(Listing(t))
  {
    var body, last := Preorder([t.path], t.body), Define([t.path], t.close);
    assert NodeLines(t.body) + [t.close] + t.after == NodeLines(t.body) + ([t.close] + t.after);
    ScansNodes(t.key, [t.path], t.body, [t.close] + t.after, scan);
    AddAllOne(scan.AddAll(body), last);
    AddAllAppend(scan, body, [last]);
    assert [t.path][..0] == [];
  }

  /** All documented trees, in order, minus later repeats of a (scope, syntax) pair. */
  lemma {:induction false} ScansTrees(trees: seq<Tree>, scan: Scan)
    requires forall i | 0 <= i < |trees| :: WellNestedTree(trees[i])
    ensures ScanRoots(TreeRoots(trees), scan) == scan.AddAll(Listings(trees))
    decreases |trees|
  {
    if trees != [] {
      ScansTree(trees[0], scan);
      ScansTrees(trees[1..], scan.AddAll(Listing(trees[0])));
      AddAllAppend(scan, Listing(trees[0]), Listings(trees[1..]));
      assert TreeRoots(trees)[1..] == TreeRoots(trees[1..]);
    }
  }

  /* ---------- What the repeats rule keeps ---------- */

  function FirstUses(ds: seq<Definition>, seen: set<Key>): seq<Definition>
  {
    if ds == [] then []
    else if KeyOf(ds[0]) in seen then FirstUses(ds[1..], seen)
    else [ds[0]] + FirstUses(ds[1..], seen + {KeyOf(ds[0])})
  }

  lemma {:induction false} AddAllKeepsFirstUses(scan: Scan, ds: seq<Definition>)
    ensures scan.AddAll(ds).definitions == scan.definitions + FirstUses(ds, scan.seen)
    decreases |ds|
  {
    if ds != [] {
      AddAllKeepsFirstUses(scan.Add(ds[0]), ds[1..]);
    }
  }

  /** The recorded keys are distinct, and a listed definition is recorded exactly at the first use of its key. */
  lemma {:induction false} FirstUsesExact(ds: seq<Definition>, seen: set<Key>)
    ensures forall i, j | 0 <= i < j < |FirstUses(ds, seen)| ::
              KeyOf(FirstUses(ds, seen)[i]) != KeyOf(FirstUses(ds, seen)[j])
    ensures forall d | d in FirstUses(ds, seen) :: KeyOf(d) !in seen
    ensures forall i | 0 <= i < |ds| && KeyOf(ds[i]) !in seen && (forall j | 0 <= j < i :: KeyOf(ds[j]) != KeyOf(ds[i])) ::
              ds[i] in FirstUses(ds, seen)
    ensures forall d | d in FirstUses(ds, seen) ::
              exists i :: 0 <= i < |ds| && ds[i] == d && forall j | 0 <= j < i :: KeyOf(ds[j]) != KeyOf(d)
    decreases |ds|
  {
    if ds != [] {
      var k := KeyOf(ds[0]);
      var rest, more := ds[1..], if k in seen then seen else seen + {k};
      FirstUsesExact(rest, more);
      var kept := FirstUses(rest, more);
      forall d | d in FirstUses(ds, seen)
        ensures exists i :: 0 <= i < |ds| && ds[i] == d && forall j | 0 <= j < i :: KeyOf(ds[j]) != KeyOf(d)
      {
        if d !in kept {
          assert ds[0] == d;
        } else {
          var i :| 0 <= i < |rest| && rest[i] == d && forall j | 0 <= j < i :: KeyOf(rest[j]) != KeyOf(d);
          assert forall j | 1 <= j < i + 1 :: ds[j] == rest[j - 1];
          assert ds[i + 1] == d;
        }
      }
      forall i | 0 <= i < |ds| && KeyOf(ds[i]) !in seen && (forall j | 0 <= j < i :: KeyOf(ds[j]) != KeyOf(ds[i]))
        ensures ds[i] in FirstUses(ds, seen)
      {
        if i > 0 {
          assert rest[i - 1] == ds[i] && KeyOf(ds[0]) != KeyOf(ds[i]);
          assert forall j | 0 <= j < i - 1 :: rest[j] == ds[j + 1];
        }
      }
    }
  }

  /** The whole scan of documented trees: exactly the first uses in their preorder listings. */
  lemma ScopeFidelity(trees: seq<Tree>)
    requires forall i | 0 <= i < |trees| :: WellNestedTree(trees[i])
    ensures ScanRoots(TreeRoots(trees), Scan([], {})).definitions == FirstUses(Listings(trees), {})
  {
    ScansTrees(trees, Scan([], {}));
    AddAllKeepsFirstUses(Scan([], {}), Listings(trees));
  }

  /** A nested block with the root's key: its `config` is taken for a repeat of the root, so its `end` closes the scope
      around it instead, which ends the scan below the root and misplaces what follows deeper down. */
  lemma RepeatedRootClosesScope(rootKey: string, stack: seq<string>, open: Line, close: Line, rest: seq<Line>, scan: Scan)
    requires stack != [] && open.kind.Config? && open.key == rootKey && close.kind.End?
    ensures var recorded := scan.Add(Define(stack, close));
            ScanLines(rootKey, stack, [open, close] + rest, scan) ==
            if |stack| == 1 then recorded else ScanLines(rootKey, stack[..|stack| - 1], rest, recorded)
  {
    var lines := [open, close] + rest;
    assert lines[1..][1..] == rest;
  }

  /* ---------- Scopes identify stacks ---------- */

  predicate LiteralPaths(stack: seq<string>)
  {
    forall i | 0 <= i < |stack| :: Avoids(stack[i], '>')
  }

  /** Two stacks of literal paths with the same scope text are the same stack. */
  lemma {:induction false} ScopeInjective(a: seq<string>, b: seq<string>)
    requires a != [] && b != [] && LiteralPaths(a) && LiteralPaths(b)
    requires Scope(a) == Scope(b)
    ensures a == b
  {
    if |a| == 1 && |b| == 1 {
    } else if |a| == 1 {
      HasMarker(b);
      assert false;
    } else if |b| == 1 {
      HasMarker(a);
      assert false;
    } else {
      SplitAtMarker(a);
      SplitAtMarker(b);
      FirstMarker(a[0] + " ", " " + Scope(a[1..]), b[0] + " ", " " + Scope(b[1..]), '>');
      assert a[0] == (a[0] + " ")[..|a[0]|] && b[0] == (b[0] + " ")[..|b[0]|];
      assert Scope(a[1..]) == (" " + Scope(a[1..]))[1..] && Scope(b[1..]) == (" " + Scope(b[1..]))[1..];
      ScopeInjective(a[1..], b[1..]);
      assert a == [a[0]] + a[1..] && b == [b[0]] + b[1..];
    }
  }

  lemma HasMarker(a: seq<string>)
    requires |a| > 1
    ensures '>' in Scope(a)
  {
  }

  lemma SplitAtMarker(a: seq<string>)
    requires |a| > 1
    ensures Scope(a) == (a[0] + " ") + ['>'] + (" " + Scope(a[1..]))
  {
  }

  /* ---------- Exactly when the scan is faithful ---------- */

  /** Balanced blocks, without the condition on their keys. */
  predicate Balanced(rootKey: string, nodes: seq<Node>)
    decreases nodes
  {
    nodes != [] ==>
      && (match nodes[0]
          case Leaf(line) => !line.kind.End? && (line.kind.Config? ==> line.key == rootKey)
          case Sub(open, children, close) => open.kind.Config? && close.kind.End? && Balanced(rootKey, children))
      && Balanced(rootKey, nodes[1..])
  }

  /** A nested block that carries the root's key, with the stack it is listed under. */
  ghost predicate Violates(rootKey: string, stack: seq<string>, open: Line, listing: seq<Definition>)
  {
    && stack != [] && LiteralPaths(stack) && open.kind.Config? && open.key == rootKey
    && Define(stack, open) in listing
  }

  ghost predicate LiteralLines(lines: seq<Line>)
  {
    forall i | 0 <= i < |lines| :: Avoids(lines[i].path, '>')
  }

  /** A balanced tree is well nested, or lists a block with the root's key. */
  lemma {:induction false} ViolationListed(rootKey: string, stack: seq<string>, nodes: seq<Node>)
    returns (inner: seq<string>, open: Line)
    requires Balanced(rootKey, nodes) && !WellNested(rootKey, nodes)
    requires stack != [] && LiteralPaths(stack) && LiteralLines(NodeLines(nodes))
    ensures inner != [] && inner[0] == stack[0] && open in NodeLines(nodes)
    ensures Violates(rootKey, inner, open, Preorder(stack, nodes))
    decreases nodes
  {
    var rest := nodes[1..];
    if !WellNested(rootKey, rest) {
      LaterLines(nodes);
      inner, open := ViolationListed(rootKey, stack, rest);
    } else {
      var first, children := nodes[0].open, nodes[0].children;
      FirstLines(nodes);
      if first.key == rootKey {
        inner, open := stack, first;
      } else {
        inner, open := ViolationListed(rootKey, stack + [first.path], children);
      }
    }
  }

  lemma LaterLines(nodes: seq<Node>)
    requires nodes != []
    ensures forall l | l in NodeLines(nodes[1..]) :: l in NodeLines(nodes)
    ensures LiteralLines(NodeLines(nodes)) ==> LiteralLines(NodeLines(nodes[1..]))
  {
    var first :=
      match nodes[0] case Leaf(line) => [line] case Sub(open, children, close) => [open] + NodeLines(children) + [close];
    assert NodeLines(nodes) == first + NodeLines(nodes[1..]);
    EndingLines(first, NodeLines(nodes[1..]));
  }

  lemma EndingLines(first: seq<Line>, later: seq<Line>)
    ensures forall l | l in later :: l in first + later
    ensures LiteralLines(first + later) ==> LiteralLines(later)
  {
    hide Avoids;
    assert forall i | 0 <= i < |later| :: (first + later)[|first| + i] == later[i];
  }

  lemma FirstLines(nodes: seq<Node>)
    requires nodes != [] && nodes[0].Sub?
    ensures nodes[0].open in NodeLines(nodes)
    ensures forall l | l in NodeLines(nodes[0].children) :: l in NodeLines(nodes)
    ensures LiteralLines(NodeLines(nodes)) ==>
              Avoids(nodes[0].open.path, '>') && LiteralLines(NodeLines(nodes[0].children))
  {
    var all, inner := NodeLines(nodes), NodeLines(nodes[0].children);
    assert all == [nodes[0].open] + inner + [nodes[0].close] + NodeLines(nodes[1..]);
    assert all[0] == nodes[0].open;
    forall i | 0 <= i < |inner| ensures inner[i] == all[i + 1] {}
  }

  /** A definition that the scan of a root can record. */
  ghost predicate Recordable(root: Root, stack: seq<string>, line: Line, d: Definition)
  {
    && stack != [] && stack[0] == root.path && LiteralPaths(stack) && line in root.lines
    && !(line.kind.Config? && line.key == root.key) && d == Define(stack, line)
  }

  ghost predicate RecordedBy(root: Root, d: Definition)
  {
    exists stack, line :: Recordable(root, stack, line, d)
  }

  /** Whatever the nesting, the scan of a root records only its own lines, under stacks that start at the root. */
  lemma {:induction false} ScanRecords(root: Root, stack: seq<string>, n: nat, scan: Scan)
    requires n <= |root.lines| && LiteralLines(root.lines)
    requires stack != [] && stack[0] == root.path && LiteralPaths(stack)
    ensures forall d | d in ScanLines(root.key, stack, root.lines[n..], scan).definitions ::
              d in scan.definitions || RecordedBy(root, d)
    decreases |root.lines| - n
  {
    if n < |root.lines| {
      var line := root.lines[n];
      assert root.lines[n..][1..] == root.lines[n + 1..];
      var next :=
        if line.kind.NoCommand? || Prose(line) || (line.kind.Config? && line.key == root.key) then scan
        else scan.Add(Define(stack, line));
      if next != scan {
        assert Recordable(root, stack, line, Define(stack, line));
      }
      assert forall d | d in next.definitions :: d in scan.definitions || RecordedBy(root, d);
      var after :=
        if line.kind.Config? && line.key != root.key then stack + [line.path]
        else if line.kind.End? then stack[..|stack| - 1]
        else stack;
      if after != [] {
        ScanRecords(root, after, n + 1, next);
      }
    }
  }

  lemma {:induction false} ScansRecord(roots: seq<Root>, scan: Scan)
    requires forall i | 0 <= i < |roots| :: LiteralLines(roots[i].lines) && Avoids(roots[i].path, '>')
    ensures forall d | d in ScanRoots(roots, scan).definitions ::
              d in scan.definitions || exists i :: 0 <= i < |roots| && RecordedBy(roots[i], d)
    decreases |roots|
  {
    if roots != [] {
      var root, rest := roots[0], roots[1..];
      var next := ScanLines(root.key, [root.path], root.lines, scan);
      assert root.lines[0..] == root.lines;
      ScanRecords(root, [root.path], 0, scan);
      ScansRecord(rest, next);
      forall d | d in ScanRoots(roots, scan).definitions
        ensures d in scan.definitions || exists i :: 0 <= i < |roots| && RecordedBy(roots[i], d)
      {
        if d in next.definitions {
          if d !in scan.definitions { assert RecordedBy(roots[0], d); }
        } else {
          var i :| 0 <= i < |rest| && RecordedBy(rest[i], d);
          assert RecordedBy(roots[i + 1], d);
        }
      }
    }
  }

  /** Every listed key is recorded by someone. */
  lemma {:induction false} FirstUsesKeepKeys(ds: seq<Definition>, seen: set<Key>, d: Definition)
    requires d in ds && KeyOf(d) !in seen
    ensures exists e :: e in FirstUses(ds, seen) && KeyOf(e) == KeyOf(d)
    decreases |ds|
  {
    if KeyOf(ds[0]) in seen {
      FirstUsesKeepKeys(ds[1..], seen, d);
    } else if KeyOf(ds[0]) == KeyOf(d) {
      assert ds[0] in FirstUses(ds, seen);
    } else {
      FirstUsesKeepKeys(ds[1..], seen + {KeyOf(ds[0])}, d);
      var e :| e in FirstUses(ds[1..], seen + {KeyOf(ds[0])}) && KeyOf(e) == KeyOf(d);
      assert e in FirstUses(ds, seen);
    }
  }

  /** The syntax of a line determines what kind of command it is and what it is matched on; paths hold no ">"; and
      roots with one path have one key. */
  ghost predicate Documented(trees: seq<Tree>)
  {
    && (forall i | 0 <= i < |trees| ::
          LiteralLines(TreeRoot(trees[i]).lines) && Avoids(trees[i].path, '>')
          && Balanced(trees[i].key, trees[i].body) && trees[i].close.kind.End?)
    && (forall i, j, a, b | 0 <= i < |trees| && 0 <= j < |trees|
          && a in TreeRoot(trees[i]).lines && b in TreeRoot(trees[j]).lines && a.syntax == b.syntax ::
          a.kind == b.kind && a.key == b.key)
    && (forall i, j | 0 <= i < |trees| && 0 <= j < |trees| && trees[i].path == trees[j].path ::
          trees[i].key == trees[j].key)
  }

  lemma {:induction false} RootOf(trees: seq<Tree>, i: nat)
    requires i < |trees|
    ensures |TreeRoots(trees)| == |trees| && TreeRoots(trees)[i] == TreeRoot(trees[i])
    ensures forall d | d in Listing(trees[i]) :: d in Listings(trees)
    decreases |trees|
  {
    if i > 0 {
      RootOf(trees[1..], i - 1);
    } else if |trees| > 1 {
      RootOf(trees[1..], 0);
    }
  }

  lemma ViolationNotRecorded(trees: seq<Tree>, i: nat, j: nat, stack: seq<string>, open: Line, d: Definition)
    requires Documented(trees) && i < |trees| && j < |trees|
    requires stack != [] && stack[0] == trees[i].path && LiteralPaths(stack) && open in TreeRoot(trees[i]).lines
    requires open.kind.Config? && open.key == trees[i].key && KeyOf(d) == KeyOf(Define(stack, open))
    ensures !RecordedBy(TreeRoot(trees[j]), d)
  {
    forall other, line ensures !Recordable(TreeRoot(trees[j]), other, line, d) {
      if Recordable(TreeRoot(trees[j]), other, line, d) {
        assert line.syntax == open.syntax;
        ScopeInjective(other, stack);
      }
    }
  }

  /** The whole scan is faithful if and only if no nested block carries its root's key. */
  lemma FaithfulExactly(trees: seq<Tree>)
    requires Documented(trees)
    ensures ScanRoots(TreeRoots(trees), Scan([], {})).definitions == FirstUses(Listings(trees), {})
            <==> forall i | 0 <= i < |trees| :: WellNested(trees[i].key, trees[i].body)
  {
    if forall i | 0 <= i < |trees| :: WellNested(trees[i].key, trees[i].body) {
      ScopeFidelity(trees);
    } else {
      var i :| 0 <= i < |trees| && !WellNested(trees[i].key, trees[i].body);
      Unfaithful(trees, i);
    }
  }

  lemma Unfaithful(trees: seq<Tree>, i: nat)
    requires Documented(trees) && i < |trees| && !WellNested(trees[i].key, trees[i].body)
    ensures ScanRoots(TreeRoots(trees), Scan([], {})).definitions != FirstUses(Listings(trees), {})
  {
    hide ScanRoots, FirstUses, Documented, Listings, RecordedBy;
    var t := trees[i];
    BodyLiteral(trees, i);
    var stack, open := ViolationListed(t.key, [t.path], t.body);
    var d, roots := Define(stack, open), TreeRoots(trees);
    assert d in Listing(t);
    RootOf(trees, i);
    FirstUsesKeepKeys(Listings(trees), {}, d);
    var e :| e in FirstUses(Listings(trees), {}) && KeyOf(e) == KeyOf(d);
    forall j | 0 <= j < |roots|
      ensures LiteralLines(roots[j].lines) && Avoids(roots[j].path, '>') && !RecordedBy(roots[j], e)
    {
      RootOf(trees, j);
      BodyLiteral(trees, j);
      ViolationNotRecorded(trees, i, j, stack, open, e);
    }
    ScansRecord(roots, Scan([], {}));
  }

  lemma BodyLiteral(trees: seq<Tree>, i: nat)
    requires Documented(trees) && i < |trees|
    ensures LiteralLines(TreeRoot(trees[i]).lines) && Avoids(trees[i].path, '>')
    ensures LiteralPaths([trees[i].path]) && LiteralLines(NodeLines(trees[i].body))
    ensures Balanced(trees[i].key, trees[i].body)
    ensures forall l | l in NodeLines(trees[i].body) :: l in TreeRoot(trees[i]).lines
  {
    var body, all := NodeLines(trees[i].body), TreeRoot(trees[i]).lines;
    forall k | 0 <= k < |body| ensures body[k] == all[k] {}
  }
}
