/**
 The `exitcheck` analyser: it finds calls of os.Exit by walking the whole file and decides
 by position intervals whether a call is inside `main`.
 */
module ExitCheck {
  import opened Wrappers

  /** What a call's function expression looks like: `ident.sel`, where the type checker may
      know the package the identifier's own declaration belongs to, or anything else. For the
      name of an import that is the importing package, not the imported one. */
  datatype Callee = Selector(ident: string, declaredIn: Option<string>, sel: string) | OtherCallee

  datatype Kind = Call(callee: Callee) | FuncDecl(name: string, isMethod: bool) | OtherNode

  /** A syntax tree node covers the positions from `pos` to just before `end`. */
  datatype Node = Node(pos: int, end: int, kind: Kind, children: seq<Node>)

  datatype File = File(packageName: string, decls: seq<Node>)

  predicate IsOsExitCall(kind: Kind) {
    && kind.Call? && kind.callee.Selector?
    && ((kind.callee.declaredIn == Some("os") && kind.callee.sel == "Exit")
        || (kind.callee.ident == "os" && kind.callee.sel == "Exit"))
  }

  predicate NamedMain(decl: Node) {
    decl.kind.FuncDecl? && decl.kind.name == "main"
  }

  /** The analyser's test: some declaration named main has the position in its interval. */
  predicate InMainFunction(decls: seq<Node>, pos: int) {
    exists i :: 0 <= i < |decls| && Covers(decls[i], pos)
  }

  predicate Covers(decl: Node, pos: int) {
    NamedMain(decl) && decl.pos <= pos <= decl.end
  }

  // ---------------------------------------------------------------- syntactic nesting

  /** The calls of os.Exit in a tree, outer before inner, left before right. */
  function ExitCalls(n: Node): seq<int>
    decreases n, 1
  {
    (if IsOsExitCall(n.kind) then [n.pos] else []) + ExitCallsOf(n.children)
  }

  function ExitCallsOf(nodes: seq<Node>): seq<int>
    decreases nodes, 0
  {
    if nodes == [] then [] else ExitCalls(nodes[0]) + ExitCallsOf(nodes[1..])
  }

  /** The calls nested in declarations named main. */
  function CallsInMain(decls: seq<Node>): seq<int> {
    if decls == [] then []
    else (if NamedMain(decls[0]) then ExitCalls(decls[0]) else []) + CallsInMain(decls[1..])
  }

  /** The calls nested in the function main, as documented: methods do not count. */
  function CallsInFunctionMain(decls: seq<Node>): seq<int> {
    if decls == [] then []
    else (if NamedMain(decls[0]) && !decls[0].kind.isMethod then ExitCalls(decls[0]) else [])
         + CallsInFunctionMain(decls[1..])
  }

  /** Children lie inside their parents. */
  predicate Nested(n: Node)
    decreases n
  {
    forall i :: 0 <= i < |n.children| ==>
      && n.pos <= n.children[i].pos && n.children[i].end <= n.end
      && n.children[i].pos <= n.children[i].end && Nested(n.children[i])
  }

  /** Every declaration is nested, and a separator stands between it and the next one. */
  predicate WellPositioned(decls: seq<Node>) {
    && (forall i :: 0 <= i < |decls| ==> decls[i].pos <= decls[i].end && Nested(decls[i]))
    && (forall i, j :: 0 <= i < j < |decls| ==> decls[i].end < decls[j].pos)
  }

  // ---------------------------------------------------------------- the analyser

  /** The calls the walk reports below a node. */
  function Reported(decls: seq<Node>, n: Node): seq<int>
    decreases n, 1
  {
    (if IsOsExitCall(n.kind) && InMainFunction(decls, n.pos) then [n.pos] else []) + ReportedOf(decls, n.children)
  }

  function ReportedOf(decls: seq<Node>, nodes: seq<Node>): seq<int>
    decreases nodes, 0
  {
    if nodes == [] then [] else Reported(decls, nodes[0]) + ReportedOf(decls, nodes[1..])
  }

  function ReportedIn(file: File): seq<int> {
    if file.packageName != "main" then [] else ReportedOf(file.decls, file.decls)
  }

  class Pass {
    var reports: seq<int>

    constructor ()
      ensures reports == []
    {
      reports := [];
    }

    /** `ast.Inspect` with a callback that never prunes. */
    method Inspect(decls: seq<Node>, n: Node)
      modifies this
      ensures reports == old(reports) + Reported(decls, n)
      decreases n, 1
    {
      if IsOsExitCall(n.kind) {
        var inMain := IsInMainFunction(decls, n.pos);
        if inMain {
          reports := reports + [n.pos];
        }
      }
      InspectAll(decls, n.children);
    }

    method InspectAll(decls: seq<Node>, nodes: seq<Node>)
      modifies this
      ensures reports == old(reports) + ReportedOf(decls, nodes)
      decreases nodes, 0
    {
      if nodes != [] {
        ghost var before := reports;
        Inspect(decls, nodes[0]);
        InspectAll(decls, nodes[1..]);
        AppendTwice(before, Reported(decls, nodes[0]), ReportedOf(decls, nodes[1..]));
      }
    }

    method Run(files: seq<File>)
      modifies this
      ensures reports == old(reports) + ReportedInAll(files)
    {
      ghost var before := reports;
      for i := 0 to |files|
        invariant reports == before + ReportedInAll(files[..i])
      {
        if files[i].packageName == "main" {
          InspectAll(files[i].decls, files[i].decls);
        }
        assert reports == before + ReportedInAll(files[..i]) + ReportedIn(files[i]);
        AppendTwice(before, ReportedInAll(files[..i]), ReportedIn(files[i]));
        ReportedNext(files, i);
      }
      assert files[..|files|] == files;
    }
  }

  lemma AppendTwice(a: seq<int>, b: seq<int>, c: seq<int>)
    ensures a + b + c == a + (b + c)
  {
  }

  function ReportedInAll(files: seq<File>): seq<int> {
    if files == [] then [] else ReportedInAll(files[..|files| - 1]) + ReportedIn(files[|files| - 1])
  }

  lemma ReportedNext(files: seq<File>, i: nat)
    requires i < |files|
    ensures ReportedInAll(files[..i + 1]) == ReportedInAll(files[..i]) + ReportedIn(files[i])
  {
    assert files[..i + 1][..i] == files[..i];
  }

  method IsInMainFunction(decls: seq<Node>, pos: int) returns (inside: bool)
    ensures inside <==> InMainFunction(decls, pos)
  {
    for i := 0 to |decls|
      invariant forall j :: 0 <= j < i ==> !Covers(decls[j], pos)
    {
      if !decls[i].kind.FuncDecl? {
        continue;
      }
      if decls[i].kind.name != "main" {
        continue;
      }
      if decls[i].pos <= pos <= decls[i].end {
        return true;
      }
    }
    inside := false;
  }

  // ---------------------------------------------------------------- intervals against nesting

  /** Between `lo` and `hi` the interval test has the constant answer `inside`. */
  predicate Constant(decls: seq<Node>, lo: int, hi: int, inside: bool) {
    forall pos :: lo <= pos <= hi ==> InMainFunction(decls, pos) == inside
  }

  lemma {:induction false} ReportedInside(decls: seq<Node>, n: Node, lo: int, hi: int, inside: bool)
    requires Nested(n) && lo <= n.pos <= n.end <= hi && Constant(decls, lo, hi, inside)
    ensures Reported(decls, n) == if inside then ExitCalls(n) else []
    decreases n, 1
  {
    ReportedInsideAll(decls, n.children, lo, hi, inside);
  }

  lemma {:induction false} ReportedInsideAll(decls: seq<Node>, nodes: seq<Node>, lo: int, hi: int, inside: bool)
    requires forall i :: 0 <= i < |nodes| ==> Nested(nodes[i]) && lo <= nodes[i].pos <= nodes[i].end <= hi
    requires Constant(decls, lo, hi, inside)
    ensures ReportedOf(decls, nodes) == if inside then ExitCallsOf(nodes) else []
    decreases nodes, 0
  {
    if nodes != [] {
      ReportedInside(decls, nodes[0], lo, hi, inside);
      ReportedInsideAll(decls, nodes[1..], lo, hi, inside);
    }
  }

  /** Inside one declaration the answer depends on that declaration alone. */
  lemma ConstantInDeclaration(decls: seq<Node>, k: nat)
    requires WellPositioned(decls) && k < |decls|
    ensures Constant(decls, decls[k].pos, decls[k].end, NamedMain(decls[k]))
  {
    forall pos | decls[k].pos <= pos <= decls[k].end
      ensures InMainFunction(decls, pos) == NamedMain(decls[k])
    {
      assert NamedMain(decls[k]) ==> Covers(decls[k], pos);
      forall i | 0 <= i < |decls| && Covers(decls[i], pos)
        ensures i == k
      {
      }
    }
  }

  lemma {:induction false} ReportedFrom(decls: seq<Node>, k: nat)
    requires WellPositioned(decls) && k <= |decls|
    ensures ReportedOf(decls, decls[k..]) == CallsInMain(decls[k..])
    decreases |decls| - k
  {
    if k < |decls| {
      assert decls[k..][0] == decls[k] && decls[k..][1..] == decls[k + 1..];
      ConstantInDeclaration(decls, k);
      ReportedInside(decls, decls[k], decls[k].pos, decls[k].end, NamedMain(decls[k]));
      ReportedFrom(decls, k + 1);
    }
  }

  /** The interval test reports exactly the calls nested in declarations named main of package
      main, each once and in order. */
  lemma ReportsAreNested(file: File)
    requires WellPositioned(file.decls)
    ensures ReportedIn(file) == if file.packageName == "main" then CallsInMain(file.decls) else []
  {
    assert file.decls[0..] == file.decls;
    ReportedFrom(file.decls, 0);
  }

  /** The analyser agrees with its documentation exactly when no method named main calls os.Exit. */
  lemma MatchesDocumentationIff(file: File)
    requires WellPositioned(file.decls) && file.packageName == "main"
    ensures ReportedIn(file) == CallsInFunctionMain(file.decls)
            <==> forall i :: 0 <= i < |file.decls| && NamedMain(file.decls[i]) && file.decls[i].kind.isMethod ==>
                   ExitCalls(file.decls[i]) == []
  {
    ReportsAreNested(file);
    MethodsCount(file.decls);
  }

  /** A file with a method called main that calls os.Exit, and no function main. */
  lemma MethodIsReported() returns (file: File)
    ensures WellPositioned(file.decls) && file.packageName == "main"
    ensures ReportedIn(file) != CallsInFunctionMain(file.decls)
  {
    var exit := Node(5, 9, Call(Selector("os", Some("os"), "Exit")), []);
    var main := Node(0, 10, FuncDecl("main", true), [exit]);
    file := File("main", [main]);
    assert ExitCallsOf([exit]) == ExitCalls(exit) + ExitCallsOf([exit][1..]);
    assert ExitCalls(exit) == [5] && ExitCalls(main) == ExitCallsOf([exit]);
    assert NamedMain(file.decls[0]) && file.decls[0].kind.isMethod && ExitCalls(file.decls[0]) != [];
    MatchesDocumentationIff(file);
  }

  lemma {:induction false} MethodsCount(decls: seq<Node>)
    ensures |CallsInMain(decls)| >= |CallsInFunctionMain(decls)|
    ensures |CallsInMain(decls)| == |CallsInFunctionMain(decls)|
            <==> forall i :: 0 <= i < |decls| && NamedMain(decls[i]) && decls[i].kind.isMethod ==>
                   ExitCalls(decls[i]) == []
    ensures |CallsInMain(decls)| == |CallsInFunctionMain(decls)| ==> CallsInMain(decls) == CallsInFunctionMain(decls)
  {
    if decls != [] {
      MethodsCount(decls[1..]);
      assert forall i :: 0 < i < |decls| ==> decls[i] == decls[1..][i - 1];
    }
  }

  /** Package main with a function main that contains one call. */
  function MainWithCall(callee: Callee): File {
    File("main", [Node(0, 10, FuncDecl("main", false), [Node(5, 9, Call(callee), [])])])
  }

  /** Which calls are taken for os.Exit: the selector must be Exit, on a name whose declaration
      belongs to package os, or on anything spelled os. */
  lemma WhichCallsAreReported(callee: Callee)
    ensures ReportedIn(MainWithCall(callee))
         == if callee.Selector? && callee.sel == "Exit" && (callee.declaredIn == Some("os") || callee.ident == "os")
            then [5] else []
  {
    var file := MainWithCall(callee);
    var call := file.decls[0].children[0];
    assert ExitCallsOf([call]) == ExitCalls(call) + ExitCallsOf([call][1..]);
    assert ExitCalls(file.decls[0]) == ExitCallsOf([call]);
    assert file.decls[1..] == [] && CallsInMain(file.decls) == ExitCalls(file.decls[0]) + CallsInMain([]);
    ReportsAreNested(file);
  }

  /** So os.Exit goes unnoticed through an import under another name, which is declared in the
      importing package, and Exit of anything else that is called os is reported. */
  lemma AliasIsMissed(alias: string, importing: string)
    requires alias != "os" && importing != "os"
    ensures ReportedIn(MainWithCall(Selector(alias, Some(importing), "Exit"))) == []
    ensures ReportedIn(MainWithCall(Selector("os", Some(importing), "Exit"))) == [5]
  {
    WhichCallsAreReported(Selector(alias, Some(importing), "Exit"));
    WhichCallsAreReported(Selector("os", Some(importing), "Exit"));
  }

  /** The position is inside a declaration called main. */
  ghost predicate LiesInMain(decls: seq<Node>, pos: int) {
    exists i :: 0 <= i < |decls| && decls[i].kind.FuncDecl? && decls[i].kind.name == "main"
                && decls[i].pos <= pos <= decls[i].end
  }

  lemma {:induction false} ReportedLies(decls: seq<Node>, n: Node)
    ensures forall k :: 0 <= k < |Reported(decls, n)| ==> LiesInMain(decls, Reported(decls, n)[k])
    decreases n, 1
  {
    ReportedAllLie(decls, n.children);
  }

  lemma {:induction false} ReportedAllLie(decls: seq<Node>, nodes: seq<Node>)
    ensures forall k :: 0 <= k < |ReportedOf(decls, nodes)| ==> LiesInMain(decls, ReportedOf(decls, nodes)[k])
    decreases nodes, 0
  {
    if nodes != [] {
      ReportedLies(decls, nodes[0]);
      ReportedAllLie(decls, nodes[1..]);
    }
  }

  /** Whatever the tree looks like, nothing is reported outside declarations called main. */
  lemma ReportsLieInMain(file: File, k: nat)
    requires k < |ReportedIn(file)|
    ensures file.packageName == "main" && LiesInMain(file.decls, ReportedIn(file)[k])
  {
    ReportedAllLie(file.decls, file.decls);
  }
}
