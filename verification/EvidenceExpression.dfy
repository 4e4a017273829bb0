/**
 Evidence expressions: their wire form, the parser that counts nodes as it goes, and
 the stack walk that enforces the hard limits on expressions built in memory.
 */
module EvidenceExpression {
  import opened Options
  import opened Formats

  datatype Expr =
    | ClauseRef(clauseId: string)
    | AllOf(children: seq<Expr>)
    | AnyOf(children: seq<Expr>)
    | AtLeast(minimum: int, children: seq<Expr>)
    | Not(child: Expr)
  {
    predicate Branches() {
      AllOf? || AnyOf? || AtLeast?
    }
  }

  datatype Json =
    | JNull
    | JBool(b: bool)
    | JInt(n: int)
    | JReal(x: real)
    | JString(s: string)
    | JList(items: seq<Json>)
    | JObject(fields: map<string, Json>)

  const MAX_NODES: nat := 2048
  const MAX_DEPTH: nat := 64
  const MAX_TOKEN: nat := 256

  predicate ValidToken(s: string) {
    && 0 < |s| <= MAX_TOKEN
    && forall i :: 0 <= i < |s| ==> !IsSpace(s[i]) && s[i] >= ' '
  }

  /** What the constructors of the expression classes insist on. */
  predicate WellFormed(e: Expr) {
    match e
    case ClauseRef(id) => ValidToken(id)
    case AllOf(cs) => cs != [] && forall i :: 0 <= i < |cs| ==> WellFormed(cs[i])
    case AnyOf(cs) => cs != [] && forall i :: 0 <= i < |cs| ==> WellFormed(cs[i])
    case AtLeast(m, cs) => cs != [] && 1 <= m <= |cs| && forall i :: 0 <= i < |cs| ==> WellFormed(cs[i])
    case Not(c) => WellFormed(c)
  }

  // ----- recursive measures -----

  function Nodes(e: Expr): (n: nat)
    ensures n >= 1
  {
    match e
    case ClauseRef(_) => 1
    case AllOf(cs) => 1 + NodesAll(cs)
    case AnyOf(cs) => 1 + NodesAll(cs)
    case AtLeast(_, cs) => 1 + NodesAll(cs)
    case Not(c) => 1 + Nodes(c)
  }

  function NodesAll(es: seq<Expr>): nat {
    if es == [] then 0 else Nodes(es[0]) + NodesAll(es[1..])
  }

  function Max(a: nat, b: nat): nat {
    if a < b then b else a
  }

  function Depth(e: Expr): (d: nat)
    ensures d >= 1
  {
    match e
    case ClauseRef(_) => 1
    case AllOf(cs) => 1 + DepthAll(cs)
    case AnyOf(cs) => 1 + DepthAll(cs)
    case AtLeast(_, cs) => 1 + DepthAll(cs)
    case Not(c) => 1 + Depth(c)
  }

  function DepthAll(es: seq<Expr>): nat {
    if es == [] then 0 else Max(Depth(es[0]), DepthAll(es[1..]))
  }

  function Children(e: Expr): seq<Expr> {
    match e
    case ClauseRef(_) => []
    case Not(c) => [c]
    case _ => e.children
  }

  lemma ChildrenMeasures(e: Expr)
    ensures Nodes(e) == 1 + NodesAll(Children(e))
    ensures Depth(e) == 1 + DepthAll(Children(e))
  {
    if e.Not? {
      MeasuresAppend([], e.child);
      assert [] + [e.child] == [e.child];
    }
  }

  lemma {:induction false} MeasuresAppend(es: seq<Expr>, last: Expr)
    ensures NodesAll(es + [last]) == NodesAll(es) + Nodes(last)
    ensures DepthAll(es + [last]) == Max(DepthAll(es), Depth(last))
  {
    if es != [] {
      assert (es + [last])[1..] == es[1..] + [last];
      MeasuresAppend(es[1..], last);
    }
  }

  lemma {:induction false} NodesOfPrefix(es: seq<Expr>, i: nat)
    requires i < |es|
    ensures NodesAll(es[..i]) + Nodes(es[i]) <= NodesAll(es)
    ensures Depth(es[i]) <= DepthAll(es)
  {
    if i == 0 {
    } else {
      assert es[1..][..i - 1] == es[..i][1..];
      NodesOfPrefix(es[1..], i - 1);
    }
  }

  // ----- the wire form -----

  function KindOf(e: Expr): string {
    match e
    case ClauseRef(_) => "clause_ref"
    case AllOf(_) => "all_of"
    case AnyOf(_) => "any_of"
    case AtLeast(_, _) => "at_least"
    case Not(_) => "not"
  }

  function PrintAll(es: seq<Expr>): (js: seq<Json>)
    ensures |js| == |es|
  {
    seq(|es|, i requires 0 <= i < |es| => Print(es[i]))
  }

  function Print(e: Expr): Json {
    var kind := JString(KindOf(e));
    match e
    case ClauseRef(id) => JObject(map["kind" := kind, "clause_id" := JString(id)])
    case AllOf(cs) => JObject(map["kind" := kind, "children" := JList(PrintAll(cs))])
    case AnyOf(cs) => JObject(map["kind" := kind, "children" := JList(PrintAll(cs))])
    case AtLeast(m, cs) => JObject(map["kind" := kind, "minimum" := JInt(m), "children" := JList(PrintAll(cs))])
    case Not(c) => JObject(map["kind" := kind, "child" := Print(c)])
  }

  /** Different expressions print differently. */
  lemma {:induction false} PrintInjective(a: Expr, b: Expr)
    requires Print(a) == Print(b)
    ensures a == b
  {
    assert Print(a).fields["kind"] == Print(b).fields["kind"];
    match a
    case ClauseRef(id) =>
      assert Print(a).fields["clause_id"] == Print(b).fields["clause_id"];
    case AllOf(cs) =>
      assert Print(a).fields["children"] == Print(b).fields["children"];
      PrintAllInjective(cs, b.children);
    case AnyOf(cs) =>
      assert Print(a).fields["children"] == Print(b).fields["children"];
      PrintAllInjective(cs, b.children);
    case AtLeast(m, cs) =>
      assert Print(a).fields["children"] == Print(b).fields["children"];
      assert Print(a).fields["minimum"] == Print(b).fields["minimum"];
      PrintAllInjective(cs, b.children);
    case Not(c) =>
      assert Print(a).fields["child"] == Print(b).fields["child"];
      PrintInjective(c, b.child);
  }

  lemma {:induction false} PrintAllInjective(a: seq<Expr>, b: seq<Expr>)
    requires PrintAll(a) == PrintAll(b)
    ensures a == b
  {
    assert |PrintAll(a)| == |PrintAll(b)|;
    forall i | 0 <= i < |a|
      ensures a[i] == b[i]
    {
      assert PrintAll(a)[i] == PrintAll(b)[i];
      PrintInjective(a[i], b[i]);
    }
  }

  // ----- the wire form, kind by kind -----

  /** An object of the kind, with the named fields beside it and no others. */
  predicate IsKind(raw: Json, kind: string, fields: set<string>) {
    raw.JObject? && raw.fields.Keys == {"kind"} + fields && raw.fields["kind"] == JString(kind)
  }

  /** The object of a branch lists as many children as there are expressions, at least one. */
  predicate ListsChildren(raw: Json, n: nat)
    requires raw.JObject? && "children" in raw.fields
  {
    raw.fields["children"].JList? && |raw.fields["children"].items| == n > 0
  }

  /** What an object of each kind stands for. */
  ghost predicate Reads(raw: Json, e: Expr)
    decreases e
  {
    match e
    case ClauseRef(id) =>
      IsKind(raw, "clause_ref", {"clause_id"}) && raw.fields["clause_id"] == JString(id) && ValidToken(id)
    case AllOf(cs) =>
      && IsKind(raw, "all_of", {"children"}) && ListsChildren(raw, |cs|)
      && forall i :: 0 <= i < |cs| ==> Reads(raw.fields["children"].items[i], cs[i])
    case AnyOf(cs) =>
      && IsKind(raw, "any_of", {"children"}) && ListsChildren(raw, |cs|)
      && forall i :: 0 <= i < |cs| ==> Reads(raw.fields["children"].items[i], cs[i])
    case AtLeast(m, cs) =>
      && IsKind(raw, "at_least", {"minimum", "children"}) && ListsChildren(raw, |cs|)
      && raw.fields["minimum"] == JInt(m) && 1 <= m <= |cs|
      && forall i :: 0 <= i < |cs| ==> Reads(raw.fields["children"].items[i], cs[i])
    case Not(c) => IsKind(raw, "not", {"child"}) && Reads(raw.fields["child"], c)
  }

  /** Reading kind by kind undoes printing, and accepts nothing else. */
  lemma {:induction false} ReadsIffPrinted(raw: Json, e: Expr)
    ensures Reads(raw, e) <==> raw == Print(e) && WellFormed(e)
    decreases e
  {
    match e
    case ClauseRef(id) =>
      assert Reads(raw, e) ==> raw.fields == Print(e).fields;
    case Not(c) =>
      if IsKind(raw, "not", {"child"}) {
        ReadsIffPrinted(raw.fields["child"], c);
        assert Reads(raw, e) ==> raw.fields == Print(e).fields;
      }
    case AllOf(cs) =>
      if IsKind(raw, "all_of", {"children"}) && raw.fields["children"].JList? {
        ChildrenReadIffPrinted(raw.fields["children"].items, cs);
        assert Reads(raw, e) ==> raw.fields == Print(e).fields;
      }
    case AnyOf(cs) =>
      if IsKind(raw, "any_of", {"children"}) && raw.fields["children"].JList? {
        ChildrenReadIffPrinted(raw.fields["children"].items, cs);
        assert Reads(raw, e) ==> raw.fields == Print(e).fields;
      }
    case AtLeast(m, cs) =>
      if IsKind(raw, "at_least", {"minimum", "children"}) && raw.fields["children"].JList? {
        ChildrenReadIffPrinted(raw.fields["children"].items, cs);
        assert Reads(raw, e) ==> raw.fields == Print(e).fields;
      }
  }

  lemma {:induction false} ChildrenReadIffPrinted(items: seq<Json>, es: seq<Expr>)
    ensures |items| == |es| && (forall i :: 0 <= i < |es| ==> Reads(items[i], es[i])) <==>
            items == PrintAll(es) && forall i :: 0 <= i < |es| ==> WellFormed(es[i])
    decreases es
  {
    if |items| == |es| {
      forall i | 0 <= i < |es|
        ensures Reads(items[i], es[i]) <==> items[i] == Print(es[i]) && WellFormed(es[i])
      {
        ReadsIffPrinted(items[i], es[i]);
      }
      assert forall i :: 0 <= i < |es| ==> PrintAll(es)[i] == Print(es[i]);
    }
  }

  // ----- the parser -----

  /** The one-cell counter threaded through the recursion. */
  class Counter {
    var count: nat

    constructor ()
      ensures count == 0
    {
      count := 0;
    }
  }

  /** `raw` is the wire form of the well-formed expression `e`. */
  ghost predicate Denotes(raw: Json, e: Expr) {
    raw == Print(e) && WellFormed(e)
  }

  /** Starting at `depth` with `count` nodes already seen, `e` stays within the hard limits. */
  predicate Fits(e: Expr, depth: nat, count: nat) {
    depth + Depth(e) - 1 <= MAX_DEPTH && count + Nodes(e) <= MAX_NODES
  }

  ghost predicate DenotesAll(raws: seq<Json>, es: seq<Expr>) {
    |raws| == |es| && forall i :: 0 <= i < |raws| ==> Denotes(raws[i], es[i])
  }

  predicate FitsAll(es: seq<Expr>, depth: nat, count: nat) {
    depth + DepthAll(es) - 1 <= MAX_DEPTH && count + NodesAll(es) <= MAX_NODES
  }

  /** Every key is required and no other is allowed. */
  predicate StrictObject(raw: Json, required: set<string>) {
    raw.JObject? && raw.fields.Keys == required
  }

  function Kind(raw: Json): Option<string> {
    if raw.JObject? && "kind" in raw.fields && raw.fields["kind"].JString? then Some(raw.fields["kind"].s) else None
  }

  /** A parse succeeds exactly when the input is the wire form of a well-formed expression that
      fits; it returns that expression and leaves the number of its nodes in the counter. */
  method ParseExpression(raw: Json, depth: nat, counter: Counter) returns (r: Option<Expr>)
    requires depth >= 1
    modifies counter
    ensures r.Some? ==> Denotes(raw, r.value) && Fits(r.value, depth, old(counter.count))
    ensures r.Some? ==> counter.count == old(counter.count) + Nodes(r.value)
    ensures r.None? ==> forall e :: Denotes(raw, e) ==> !Fits(e, depth, old(counter.count))
    decreases raw, 1
  {
    if depth > MAX_DEPTH {
      return None;
    }
    counter.count := counter.count + 1;
    if counter.count > MAX_NODES {
      return None;
    }
    if !raw.JObject? {
      return None;
    }
    match Kind(raw)
    case Some("clause_ref") =>
      r := ParseClauseRef(raw);
    case Some("all_of") =>
      r := ParseBranch(raw, "all_of", depth, counter);
    case Some("any_of") =>
      r := ParseBranch(raw, "any_of", depth, counter);
    case Some("at_least") =>
      r := ParseBranch(raw, "at_least", depth, counter);
    case Some("not") =>
      r := ParseNot(raw, depth, counter);
    case _ =>
      r := None;
  }

  method ParseClauseRef(raw: Json) returns (r: Option<Expr>)
    requires Kind(raw) == Some("clause_ref")
    ensures r.Some? ==> Denotes(raw, r.value) && r.value.ClauseRef?
    ensures r.None? ==> forall e :: !Denotes(raw, e)
  {
    if !StrictObject(raw, {"kind", "clause_id"}) {
      return None;
    }
    var id := raw.fields["clause_id"];
    if !id.JString? || !ValidToken(id.s) {
      return None;
    }
    r := Some(ClauseRef(id.s));
    assert raw.fields == Print(r.value).fields;
  }

  lemma NotShape(raw: Json, e: Expr)
    requires Denotes(raw, e) && Kind(raw) == Some("not")
    ensures e.Not? && "child" in raw.fields && Denotes(raw.fields["child"], e.child)
  {
    assert raw.fields["kind"] == JString(KindOf(e));
  }

  method ParseNot(raw: Json, depth: nat, counter: Counter) returns (r: Option<Expr>)
    requires 1 <= depth <= MAX_DEPTH && 1 <= counter.count <= MAX_NODES
    requires Kind(raw) == Some("not")
    modifies counter
    ensures r.Some? ==> Denotes(raw, r.value) && Fits(r.value, depth, old(counter.count) - 1)
    ensures r.Some? ==> counter.count == old(counter.count) - 1 + Nodes(r.value)
    ensures r.None? ==> forall e :: Denotes(raw, e) ==> !Fits(e, depth, old(counter.count) - 1)
    decreases raw, 0
  {
    if !StrictObject(raw, {"kind", "child"}) {
      return None;
    }
    var child := ParseExpression(raw.fields["child"], depth + 1, counter);
    if child.None? {
      forall e | Denotes(raw, e)
        ensures !Fits(e, depth, old(counter.count) - 1)
      {
        NotShape(raw, e);
      }
      return None;
    }
    r := Some(Not(child.value));
    assert raw.fields == Print(r.value).fields;
  }

  /** Wire forms have at most one reading. */
  lemma ReadingsAgree(raws: seq<Json>, a: seq<Expr>, b: seq<Expr>, n: nat)
    requires n <= |raws| && n <= |a| && n <= |b|
    requires forall i :: 0 <= i < n ==> Denotes(raws[i], a[i])
    requires forall i :: 0 <= i < n ==> Denotes(raws[i], b[i])
    ensures a[..n] == b[..n]
  {
    forall i | 0 <= i < n ensures a[i] == b[i] {
      PrintInjective(a[i], b[i]);
    }
  }

  /** If one child cannot be read within the limits, after the children before it, then neither
      can the list. */
  lemma ChildFails(items: seq<Json>, parsed: seq<Expr>, depth: nat, count: nat, es: seq<Expr>)
    requires |parsed| < |items| && DenotesAll(items[..|parsed|], parsed)
    requires forall e :: Denotes(items[|parsed|], e) ==> !Fits(e, depth, count + NodesAll(parsed))
    requires DenotesAll(items, es)
    ensures !FitsAll(es, depth, count)
  {
    var i := |parsed|;
    assert forall k :: 0 <= k < i ==> items[k] == items[..i][k];
    ReadingsAgree(items, parsed, es, i);
    assert parsed[..i] == parsed;
    NodesOfPrefix(es, i);
    assert Denotes(items[i], es[i]);
  }

  lemma DenotesAppend(items: seq<Json>, i: nat, parsed: seq<Expr>, child: Expr)
    requires i < |items| && DenotesAll(items[..i], parsed) && Denotes(items[i], child)
    ensures DenotesAll(items[..i + 1], parsed + [child])
  {
    forall k | 0 <= k < i
      ensures Denotes(items[k], parsed[k])
    {
      assert items[..i][k] == items[k];
    }
  }

  method ParseChildren(items: seq<Json>, depth: nat, counter: Counter) returns (r: Option<seq<Expr>>)
    requires 1 <= depth <= MAX_DEPTH + 1 && counter.count <= MAX_NODES
    modifies counter
    ensures r.Some? ==> DenotesAll(items, r.value) && FitsAll(r.value, depth, old(counter.count))
    ensures r.Some? ==> counter.count == old(counter.count) + NodesAll(r.value)
    ensures r.None? ==> forall es :: DenotesAll(items, es) ==> !FitsAll(es, depth, old(counter.count))
    decreases items
  {
    var parsed: seq<Expr> := [];
    for i := 0 to |items|
      invariant |parsed| == i && DenotesAll(items[..i], parsed)
      invariant FitsAll(parsed, depth, old(counter.count))
      invariant counter.count == old(counter.count) + NodesAll(parsed)
    {
      var child := ParseExpression(items[i], depth, counter);
      if child.None? {
        forall es | DenotesAll(items, es)
          ensures !FitsAll(es, depth, old(counter.count))
        {
          ChildFails(items, parsed, depth, old(counter.count), es);
        }
        return None;
      }
      MeasuresAppend(parsed, child.value);
      DenotesAppend(items, i, parsed, child.value);
      parsed := parsed + [child.value];
    }
    assert items[..|items|] == items;
    r := Some(parsed);
  }

  predicate BranchKind(kind: string) {
    kind in ["all_of", "any_of", "at_least"]
  }

  lemma BranchShape(raw: Json, kind: string, e: Expr)
    requires Denotes(raw, e) && Kind(raw) == Some(kind) && BranchKind(kind)
    ensures e.Branches() && KindOf(e) == kind
    ensures "children" in raw.fields && raw.fields["children"].JList?
    ensures DenotesAll(raw.fields["children"].items, e.children)
    ensures e.AtLeast? ==> "minimum" in raw.fields && raw.fields["minimum"] == JInt(e.minimum)
  {
    assert raw.fields["kind"] == JString(KindOf(e));
    assert raw.fields["children"] == JList(PrintAll(e.children));
  }

  /** A list of printed children is printed by printing the children. */
  lemma ChildrenPrint(items: seq<Json>, es: seq<Expr>)
    requires DenotesAll(items, es)
    ensures PrintAll(es) == items
  {
  }

  method ParseBranch(raw: Json, kind: string, depth: nat, counter: Counter) returns (r: Option<Expr>)
    requires 1 <= depth <= MAX_DEPTH && 1 <= counter.count <= MAX_NODES
    requires Kind(raw) == Some(kind) && BranchKind(kind)
    modifies counter
    ensures r.Some? ==> Denotes(raw, r.value) && Fits(r.value, depth, old(counter.count) - 1)
    ensures r.Some? ==> counter.count == old(counter.count) - 1 + Nodes(r.value)
    ensures r.None? ==> forall e :: Denotes(raw, e) ==> !Fits(e, depth, old(counter.count) - 1)
    decreases raw, 0
  {
    var required := {"kind", "children"} + if kind == "at_least" then {"minimum"} else {};
    if !StrictObject(raw, required) {
      return None;
    }
    var children := raw.fields["children"];
    if !children.JList? || children.items == [] {
      return None;
    }
    var parsed := ParseChildren(children.items, depth + 1, counter);
    if parsed.None? {
      forall e | Denotes(raw, e)
        ensures !Fits(e, depth, old(counter.count) - 1)
      {
        BranchShape(raw, kind, e);
      }
      return None;
    }
    ChildrenPrint(children.items, parsed.value);
    if kind == "all_of" {
      r := Some(AllOf(parsed.value));
    } else if kind == "any_of" {
      r := Some(AnyOf(parsed.value));
    } else {
      var minimum := raw.fields["minimum"];
      if !minimum.JInt? || !(1 <= minimum.n <= |parsed.value|) {
        return None;
      }
      r := Some(AtLeast(minimum.n, parsed.value));
    }
    assert raw.fields == Print(r.value).fields;
  }

  predicate WithinHardLimits(e: Expr) {
    Nodes(e) <= MAX_NODES && Depth(e) <= MAX_DEPTH
  }

  /** Parsing returns only expressions that the input stands for, kind by kind, and that are within the
      limits; and it returns the expression that was printed exactly when that is within them, which is
      what the hard-limit walk decides. */
  method ExpressionFromDict(raw: Json) returns (r: Option<Expr>)
    ensures r.Some? ==> Reads(raw, r.value) && WithinHardLimits(r.value)
    ensures forall e :: Reads(raw, e) ==> (r == Some(e) <==> WithinHardLimits(e))
    ensures forall e :: Denotes(raw, e) ==> (r == Some(e) <==> WithinHardLimits(e))
  {
    var counter := new Counter();
    r := ParseExpression(raw, 1, counter);
    forall e | Denotes(raw, e)
      ensures r == Some(e) <==> WithinHardLimits(e)
    {
      if r.Some? {
        PrintInjective(r.value, e);
      }
    }
    forall e
      ensures Reads(raw, e) <==> Denotes(raw, e)
    {
      ReadsIffPrinted(raw, e);
    }
  }

  // ----- the stack walk -----

  /** A node waiting on the stack, with its depth. The top of a stack is its last entry. */
  datatype Pending = Pending(expr: Expr, depth: nat)

  /** The children of a node, pushed in reverse so that the first is on top. */
  function PushAll(stack: seq<Pending>, children: seq<Expr>, depth: nat): (r: seq<Pending>)
    ensures |r| == |stack| + |children|
  {
    if children == [] then stack
    else PushAll(stack, children[1..], depth) + [Pending(children[0], depth)]
  }

  function PushChildren(stack: seq<Pending>, top: Pending): seq<Pending> {
    PushAll(stack, Children(top.expr), top.depth + 1)
  }

  function Pop(stack: seq<Pending>): seq<Pending>
    requires stack != []
  {
    stack[..|stack| - 1]
  }

  function Top(stack: seq<Pending>): Pending
    requires stack != []
  {
    stack[|stack| - 1]
  }

  ghost function StackNodes(stack: seq<Pending>): nat {
    if stack == [] then 0 else StackNodes(Pop(stack)) + Nodes(Top(stack).expr)
  }

  /** The depth of the deepest node still to be visited. */
  ghost function StackDepth(stack: seq<Pending>): nat {
    if stack == [] then 0
    else Max(StackDepth(Pop(stack)), Top(stack).depth + Depth(Top(stack).expr) - 1)
  }

  lemma {:induction false} PushAllMeasures(stack: seq<Pending>, children: seq<Expr>, depth: nat)
    requires depth >= 1
    ensures StackNodes(PushAll(stack, children, depth)) == StackNodes(stack) + NodesAll(children)
    ensures StackDepth(PushAll(stack, children, depth)) ==
            Max(StackDepth(stack), if children == [] then 0 else depth + DepthAll(children) - 1)
  {
    if children != [] {
      PushAllMeasures(stack, children[1..], depth);
      assert Pop(PushAll(stack, children, depth)) == PushAll(stack, children[1..], depth);
    }
  }

  lemma MaxOfShifted(a: nat, depth: nat, children: nat)
    requires depth >= 1
    ensures Max(depth, Max(a, if children == 0 then 0 else depth + 1 + children - 1)) ==
            Max(a, depth + (1 + children) - 1)
  {
  }

  lemma {:induction false} DepthAllPositive(es: seq<Expr>)
    requires es != []
    ensures DepthAll(es) >= 1
  {
  }

  lemma PushedMeasures(rest: seq<Pending>, top: Pending)
    requires top.depth >= 1
    ensures 1 + StackNodes(PushChildren(rest, top)) == StackNodes(rest) + Nodes(top.expr)
    ensures Max(top.depth, StackDepth(PushChildren(rest, top))) ==
            Max(StackDepth(rest), top.depth + Depth(top.expr) - 1)
  {
    var children := Children(top.expr);
    ChildrenMeasures(top.expr);
    PushAllMeasures(rest, children, top.depth + 1);
    if children != [] {
      DepthAllPositive(children);
    }
    MaxOfShifted(StackDepth(rest), top.depth, DepthAll(children));
  }

  /** Visiting the top node moves it, and nothing else, from the stack to the visited part. */
  lemma VisitMeasures(stack: seq<Pending>)
    requires stack != [] && Top(stack).depth >= 1
    ensures StackNodes(stack) == 1 + StackNodes(PushChildren(Pop(stack), Top(stack)))
    ensures StackDepth(stack) == Max(Top(stack).depth, StackDepth(PushChildren(Pop(stack), Top(stack))))
  {
    PushedMeasures(Pop(stack), Top(stack));
  }

  lemma {:induction false} PushAllDepths(stack: seq<Pending>, children: seq<Expr>, depth: nat)
    requires depth >= 1 && forall i :: 0 <= i < |stack| ==> stack[i].depth >= 1
    ensures forall i :: 0 <= i < |PushAll(stack, children, depth)| ==> PushAll(stack, children, depth)[i].depth >= 1
  {
    if children != [] {
      PushAllDepths(stack, children[1..], depth);
    }
  }

  /** The walk over an expression in memory accepts exactly those within the hard limits. */
  method ValidateHardLimits(expression: Expr) returns (accepted: bool)
    ensures accepted <==> WithinHardLimits(expression)
  {
    var nodes := 0;
    var stack := [Pending(expression, 1)];
    assert Pop(stack) == [];
    while stack != []
      invariant forall i :: 0 <= i < |stack| ==> stack[i].depth >= 1
      invariant nodes + StackNodes(stack) == Nodes(expression) && nodes <= MAX_NODES
      invariant Depth(expression) <= MAX_DEPTH <==> StackDepth(stack) <= MAX_DEPTH
      decreases StackNodes(stack)
    {
      var current := Top(stack);
      VisitMeasures(stack);
      nodes := nodes + 1;
      if nodes > MAX_NODES || current.depth > MAX_DEPTH {
        return false;
      }
      PushAllDepths(Pop(stack), Children(current.expr), current.depth + 1);
      stack := PushChildren(Pop(stack), current);
    }
    accepted := true;
  }
}
