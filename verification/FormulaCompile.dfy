/** Compiling formula bindings: parse, infer, index; and what an indexed formula is good for. */
module FormulaCompile {
  import opened Wrappers
  import opened Ordering
  import opened FormulaAst
  import opened FormulaParser
  import opened FormulaLexer
  import opened FormulaShape
  import opened FormulaTiling
  import opened FormulaSemantics
  import opened FormulaSoundness
  import opened FormulaIndex

  datatype Binding = Binding(sourceId: string, fieldPath: string, output: string, expression: string)

  /** One indexed formula; its hashes are functions of the expression and the root. */
  datatype Record = Record(sourceId: string, fieldPath: string, output: string, expression: string, root: Node, listed: seq<FormulaRead>)

  datatype Reason = Syntax | Typing(code: Code)

  datatype Issue = Issue(sourceId: string, fieldPath: string, reason: Reason, span: Span)

  /** What compilation consults: character tables, the decimal printer, the registry and the variable types. */
  datatype Context = Context(classes: Classes, canonical: string -> Option<string>, registry: Registry, symbols: Resolver, codeName: Reason -> string)

  function RecordKey(r: Record): string { r.sourceId + r.fieldPath }

  function IssueKey(c: Context): Issue -> string {
    (i: Issue) => i.sourceId + i.fieldPath + c.codeName(i.reason)
  }

  // ---------- One binding ----------

  function ParseSource(c: Context, source: string): (p: Parsed)
    ensures Shaped(p.node)
  {
    var lexed := LexFrom(c.classes, source, 0);
    var inp := Input(lexed.tokens, Some(c.registry), c.canonical);
    SourceParses(c.classes, source, inp);
    ParseTokens(inp, lexed.errors)
  }

  function InferSource(c: Context, source: string): Inferred {
    var p := ParseSource(c, source);
    Infer(p.node, c.registry, c.symbols)
  }

  predicate Compiles(c: Context, b: Binding) {
    ParseSource(c, b.expression).errors == [] && InferSource(c, b.expression).issues == []
  }

  function SyntaxIssues(b: Binding, errors: seq<SyntaxError>): (r: seq<Issue>)
    ensures |r| == |errors|
  {
    if errors == [] then [] else [Issue(b.sourceId, b.fieldPath, Syntax, errors[0].span)] + SyntaxIssues(b, errors[1..])
  }

  function TypeIssues(b: Binding, issues: seq<Diagnostic>): (r: seq<Issue>)
    ensures |r| == |issues|
  {
    if issues == [] then []
    else [Issue(b.sourceId, b.fieldPath, Typing(issues[0].code), issues[0].span)] + TypeIssues(b, issues[1..])
  }

  /** Every syntax error and every typing issue of one binding. */
  function IssuesOf(c: Context, b: Binding): seq<Issue> {
    SyntaxIssues(b, ParseSource(c, b.expression).errors) + TypeIssues(b, InferSource(c, b.expression).issues)
  }

  /** A record but for the reads, whose order within ties is left to the sort. */
  function Entry(c: Context, b: Binding): Record {
    Record(b.sourceId, b.fieldPath, b.output, b.expression, ParseSource(c, b.expression).node, [])
  }

  function Bare(r: Record): Record { r.(listed := []) }

  ghost predicate Indexed(r: Record) {
    SortedBy(ReadKey, r.listed) && multiset(r.listed) == multiset(Selectors(r.root))
  }

  // ---------- All bindings ----------

  function AllIssues(c: Context, bs: seq<Binding>): seq<Issue> {
    if bs == [] then [] else AllIssues(c, bs[..|bs| - 1]) + IssuesOf(c, bs[|bs| - 1])
  }

  function AllEntries(c: Context, bs: seq<Binding>): seq<Record> {
    if bs == [] then []
    else AllEntries(c, bs[..|bs| - 1]) + (if Compiles(c, bs[|bs| - 1]) then [Entry(c, bs[|bs| - 1])] else [])
  }

  method CompileFormulaBindings(c: Context, bindings: seq<Binding>) returns (records: seq<Record>, issues: seq<Issue>)
    ensures forall i, j | 0 <= i < j < |records| ::
      !Less(records[j].sourceId + records[j].fieldPath, records[i].sourceId + records[i].fieldPath)
    ensures forall i, j | 0 <= i < j < |issues| ::
      !Less(issues[j].sourceId + issues[j].fieldPath + c.codeName(issues[j].reason),
            issues[i].sourceId + issues[i].fieldPath + c.codeName(issues[i].reason))
    ensures multiset(issues) == multiset(AllIssues(c, bindings))
    ensures multiset(Map(Bare, records)) == multiset(AllEntries(c, bindings))
    ensures forall r | r in records :: Indexed(r)
  {
    hide ParseSource, InferSource, Selectors, SortedBy, AllIssues, AllEntries, SyntaxIssues, TypeIssues, IssueKey, Bare;
    records, issues := [], [];
    var i := 0;
    NoBindings(c, bindings);
    while i < |bindings|
      invariant i <= |bindings|
      invariant issues == AllIssues(c, bindings[..i])
      invariant Map(Bare, records) == AllEntries(c, bindings[..i])
      invariant forall r | r in records :: Indexed(r)
    {
      var b := bindings[i];
      NextBinding(c, bindings, i);
      var root, syntax, typing := CompileOne(c, b.expression);
      issues := issues + SyntaxIssues(b, syntax) + TypeIssues(b, typing);
      if syntax == [] && typing == [] {
        var listed := FormulaReads(root);
        var r := Record(b.sourceId, b.fieldPath, b.output, b.expression, root, listed);
        BareEntry(c, b, r);
        assert Map(Bare, records + [r]) == Map(Bare, records) + [Bare(r)];
        records := records + [r];
      }
      i := i + 1;
    }
    assert bindings[..i] == bindings;
    ghost var compiled := records;
    records := SortSlice(RecordKey, records);
    MapMultiset(Bare, compiled, records);
    assert forall r :: r in records ==> r in multiset(compiled);
    issues := SortSlice(IssueKey(c), issues);
    RecordsInOrder(records);
    IssuesInOrder(c, issues);
  }

  lemma RecordsInOrder(records: seq<Record>)
    requires SortedBy(RecordKey, records)
    ensures forall i, j | 0 <= i < j < |records| ::
      !Less(records[j].sourceId + records[j].fieldPath, records[i].sourceId + records[i].fieldPath)
  {
  }

  lemma IssuesInOrder(c: Context, issues: seq<Issue>)
    requires SortedBy(IssueKey(c), issues)
    ensures forall i, j | 0 <= i < j < |issues| ::
      !Less(issues[j].sourceId + issues[j].fieldPath + c.codeName(issues[j].reason),
            issues[i].sourceId + issues[i].fieldPath + c.codeName(issues[i].reason))
  {
  }

  /** The issue is a syntax error or a typing issue of this binding, with the binding's name and its own place. */
  ghost predicate IsIssueOf(c: Context, b: Binding, issue: Issue) {
    && issue.sourceId == b.sourceId && issue.fieldPath == b.fieldPath
    && match issue.reason
       case Syntax => exists k: nat :: k < |ParseSource(c, b.expression).errors| && ParseSource(c, b.expression).errors[k].span == issue.span
       case Typing(code) => Diagnostic(code, issue.span) in InferSource(c, b.expression).issues
  }

  lemma {:induction false} SyntaxIssuesListed(b: Binding, errors: seq<SyntaxError>, issue: Issue)
    ensures issue in SyntaxIssues(b, errors) <==>
      issue.sourceId == b.sourceId && issue.fieldPath == b.fieldPath && issue.reason == Syntax
      && exists k: nat :: k < |errors| && errors[k].span == issue.span
  {
    if errors != [] {
      SyntaxIssuesListed(b, errors[1..], issue);
      assert forall k: nat | k < |errors[1..]| :: errors[1..][k] == errors[k + 1];
      assert forall k: nat | 0 < k < |errors| :: errors[k] == errors[1..][k - 1];
    }
  }

  lemma {:induction false} TypeIssuesListed(b: Binding, issues: seq<Diagnostic>, issue: Issue)
    ensures issue in TypeIssues(b, issues) <==>
      issue.sourceId == b.sourceId && issue.fieldPath == b.fieldPath && issue.reason.Typing?
      && Diagnostic(issue.reason.code, issue.span) in issues
  {
    if issues != [] {
      TypeIssuesListed(b, issues[1..], issue);
      assert issues == [issues[0]] + issues[1..];
    }
  }

  /** Exactly the issues of the bindings are reported. */
  lemma {:induction false} ReportedExactly(c: Context, bs: seq<Binding>, issue: Issue)
    ensures issue in AllIssues(c, bs) <==> exists b :: b in bs && IsIssueOf(c, b, issue)
  {
    hide ParseSource, InferSource, SyntaxIssues, TypeIssues, IsIssueOf;
    if bs != [] {
      var n := |bs| - 1;
      ReportedExactly(c, bs[..n], issue);
      assert bs == bs[..n] + [bs[n]];
      IssuesOfListed(c, bs[n], issue);
    }
  }

  lemma IssuesOfListed(c: Context, b: Binding, issue: Issue)
    ensures issue in IssuesOf(c, b) <==> IsIssueOf(c, b, issue)
  {
    hide ParseSource, InferSource, SyntaxIssues, TypeIssues;
    SyntaxIssuesListed(b, ParseSource(c, b.expression).errors, issue);
    TypeIssuesListed(b, InferSource(c, b.expression).issues, issue);
  }

  lemma NoBindings(c: Context, bindings: seq<Binding>)
    ensures AllIssues(c, bindings[..0]) == [] && AllEntries(c, bindings[..0]) == []
  {
  }

  lemma NextBinding(c: Context, bindings: seq<Binding>, i: nat)
    requires i < |bindings|
    ensures
      var b := bindings[i];
      AllIssues(c, bindings[..i + 1]) ==
        AllIssues(c, bindings[..i]) + SyntaxIssues(b, ParseSource(c, b.expression).errors) + TypeIssues(b, InferSource(c, b.expression).issues)
    ensures
      var b := bindings[i];
      AllEntries(c, bindings[..i + 1]) == AllEntries(c, bindings[..i]) + if Compiles(c, b) then [Entry(c, b)] else []
  {
    hide ParseSource, InferSource, SyntaxIssues, TypeIssues, Compiles, Entry;
    assert bindings[..i + 1][..i] == bindings[..i];
  }

  lemma BareEntry(c: Context, b: Binding, r: Record)
    requires r == Record(b.sourceId, b.fieldPath, b.output, b.expression, ParseSource(c, b.expression).node, r.listed)
    ensures Bare(r) == Entry(c, b)
  {
    hide ParseSource;
  }

  method CompileOne(c: Context, source: string) returns (root: Node, syntax: seq<SyntaxError>, typing: seq<Diagnostic>)
    ensures root == ParseSource(c, source).node && syntax == ParseSource(c, source).errors
    ensures typing == InferSource(c, source).issues
  {
    var tokens, lexErrors := Lex(c.classes, source);
    var inp := Input(tokens, Some(c.registry), c.canonical);
    SourceParses(c.classes, source, inp);
    root, syntax := Parse(inp, lexErrors);
    typing := Infer(root, c.registry, c.symbols).issues;
  }

  // ---------- What an indexed formula is good for ----------

  /** Each record stems from a binding that compiled, each binding that compiled has a record. */
  lemma RecordsAreTheCompiled(c: Context, bindings: seq<Binding>, records: seq<Record>)
    requires multiset(Map(Bare, records)) == multiset(AllEntries(c, bindings))
    ensures forall r | r in records :: exists b :: b in bindings && Compiles(c, b) && Bare(r) == Entry(c, b)
    ensures forall b | b in bindings && Compiles(c, b) :: exists r :: r in records && Bare(r) == Entry(c, b)
  {
    hide Compiles, Entry;
    EntriesAreTheCompiled(c, bindings);
    forall r | r in records ensures exists b :: b in bindings && Compiles(c, b) && Bare(r) == Entry(c, b) {
      var i :| 0 <= i < |records| && records[i] == r;
      assert Map(Bare, records)[i] in multiset(AllEntries(c, bindings));
      assert Bare(r) in AllEntries(c, bindings);
    }
    forall b | b in bindings && Compiles(c, b) ensures exists r :: r in records && Bare(r) == Entry(c, b) {
      assert Entry(c, b) in multiset(Map(Bare, records));
      var i :| 0 <= i < |records| && Map(Bare, records)[i] == Entry(c, b);
      assert records[i] in records;
    }
  }

  lemma {:induction false} EntriesAreTheCompiled(c: Context, bindings: seq<Binding>)
    ensures forall e | e in AllEntries(c, bindings) :: exists b :: b in bindings && Compiles(c, b) && e == Entry(c, b)
    ensures forall b | b in bindings && Compiles(c, b) :: Entry(c, b) in AllEntries(c, bindings)
  {
    hide Compiles, Entry;
    if bindings != [] {
      var n := |bindings| - 1;
      EntriesAreTheCompiled(c, bindings[..n]);
      assert bindings == bindings[..n] + [bindings[n]];
    }
  }

  /** Of the bindings, exactly those without any issue of their own are recorded, name and expression and output alike. */
  lemma RecordedExactlyWithoutIssues(c: Context, bindings: seq<Binding>, records: seq<Record>, b: Binding)
    requires multiset(Map(Bare, records)) == multiset(AllEntries(c, bindings)) && b in bindings
    ensures (forall issue :: !IsIssueOf(c, b, issue)) <==>
      exists r :: r in records && r.sourceId == b.sourceId && r.fieldPath == b.fieldPath && r.output == b.output && r.expression == b.expression
  {
    hide ParseSource, InferSource;
    RecordsAreTheCompiled(c, bindings, records);
    if Compiles(c, b) {
      forall issue ensures !IsIssueOf(c, b, issue) {}
    } else if ParseSource(c, b.expression).errors != [] {
      assert IsIssueOf(c, b, Issue(b.sourceId, b.fieldPath, Syntax, ParseSource(c, b.expression).errors[0].span));
    } else {
      var d := InferSource(c, b.expression).issues[0];
      assert IsIssueOf(c, b, Issue(b.sourceId, b.fieldPath, Typing(d.code), d.span));
    }
  }

  /** The table gives every listed variable the type it was compiled with. */
  ghost predicate Supplies<D>(table: Table<D>, listed: seq<FormulaRead>, symbols: Resolver) {
    AgreeOn(listed, symbols, TypesOf(table))
  }

  /** From source text to a run: a compiled formula never fails type checking again, never panics, and yields the inferred type,
      in every table that supplies its listed reads; only arithmetic can stop it when its operands are numeric. */
  lemma CompiledFormulasRun<D(!new)>(c: Context, b: Binding, r: Record, arith: Arith<D>, table: Table<D>)
    requires c.registry.Valid() && Compiles(c, b) && Bare(r) == Entry(c, b) && Indexed(r)
    requires Agrees(table) && Supplies(table, r.listed, c.symbols)
    ensures Shaped(r.root) && Infer(r.root, c.registry, TypesOf(table)) == InferSource(c, b.expression)
    ensures !EvaluateWithSymbols(r.root, c.registry, arith, table).Panicked?
    ensures EvaluateWithSymbols(r.root, c.registry, arith, table).Evaluated? ==>
      Fits(EvaluateWithSymbols(r.root, c.registry, arith, table).value, InferSource(c, b.expression).typ)
    ensures
      Complete(table) && RoundingTotal(arith) && NumericOperands(r.root, c.registry, c.symbols)
      && EvaluateWithSymbols(r.root, c.registry, arith, table).Diagnosed? ==>
        exists issue :: EvaluateWithSymbols(r.root, c.registry, arith, table).issues == [issue] && IsNumericCode(issue.code)
  {
    assert r.root == ParseSource(c, b.expression).node;
    assert forall s :: s in Selectors(r.root) <==> s in multiset(r.listed);
    InferFrame(r.root, c.registry, c.symbols, TypesOf(table));
    EvaluationIsTyped(r.root, c.registry, arith, table);
    NumericFrame(r.root, c.registry, c.symbols, TypesOf(table));
  }

  /** Whether operands are numeric depends on the listed reads only. */
  lemma {:induction false} NumericFrame(node: Node, registry: Registry, a: Resolver, b: Resolver)
    requires Arity(node) && AgreeOn(Selectors(node), a, b)
    ensures NumericOperands(node, registry, a) <==> NumericOperands(node, registry, b)
    decreases node
  {
    hide Infer, Selectors;
    forall i | 0 <= i < |node.args|
      ensures NumericOperands(node.args[i], registry, a) <==> NumericOperands(node.args[i], registry, b)
      ensures Infer(node.args[i], registry, a) == Infer(node.args[i], registry, b)
    {
      AgreeOnChild(node, i, a, b);
      NumericFrame(node.args[i], registry, a, b);
      InferFrame(node.args[i], registry, a, b);
    }
  }
}
