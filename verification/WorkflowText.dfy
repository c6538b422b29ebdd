// References in workflow expressions as they are printed
// (apmec/meo/drivers/workflow/workflow_generator.py) and as the expression language reads
// them: a dot is followed by an identifier, made of letters, digits and underscores.
module WorkflowText {
  import opened Workflow
  import opened WorkflowScope

  predicate IsDigit(c: char) {
    '0' <= c <= '9'
  }

  predicate IdentChar(c: char) {
    'a' <= c <= 'z' || 'A' <= c <= 'Z' || IsDigit(c) || c == '_'
  }

  predicate IsWord(s: string) {
    forall i | 0 <= i < |s| :: IdentChar(s[i])
  }

  // An identifier does not begin with a digit.
  predicate IsIdentifier(s: string) {
    s != "" && IsWord(s) && !IsDigit(s[0])
  }

  // The identifier characters at the start of s.
  function Word(s: string): (w: string)
    ensures w <= s && IsWord(w)
    ensures |w| < |s| ==> !IdentChar(s[|w|])
  {
    if s == "" || !IdentChar(s[0]) then "" else [s[0]] + Word(s[1..])
  }

  // The identifier that is read, if there is one.
  function Read(s: string): string {
    if IsIdentifier(Word(s)) then Word(s) else ""
  }

  // What a reference is printed as, up to the text that follows it.
  function Printed(ref: Ref): string {
    match ref
    case RequestOf(node) => node
    case Variable(v) => VarText(v)
  }

  predicate ReadsBack(ref: Ref, rest: string) {
    Printed(ref) != "" && Read(Printed(ref) + rest) == Printed(ref)
  }

  lemma {:induction false} WordStops(a: string, rest: string)
    requires rest != "" && !IdentChar(rest[0])
    ensures Word(a + rest) == a <==> IsWord(a)
  {
    if a == "" {
      assert a + rest == rest;
    } else {
      WordStops(a[1..], rest);
      assert (a + rest)[1..] == a[1..] + rest;
    }
  }

  // A reference to the request of a node comes back exactly when the node is an identifier, and
  // one to a variable exactly when it is made of identifier characters.
  lemma ReferenceReadsExactly(ref: Ref, rest: string)
    requires rest != "" && !IdentChar(rest[0])
    ensures ReadsBack(ref, rest) <==>
            match ref case RequestOf(node) => IsIdentifier(node) case Variable(v) => IsWord(v.node)
  {
    WordStops(Printed(ref), rest);
    match ref
    case RequestOf(node) =>
    case Variable(v) =>
      FieldIsIdentifier(v.field);
      var f := FieldText(v.field) + "_";
      assert VarText(v) == f + v.node;
      assert forall i | 0 <= i < |v.node| :: VarText(v)[|f| + i] == v.node[i];
  }

  lemma FieldIsIdentifier(field: Field)
    ensures IsIdentifier(FieldText(field) + "_")
  {
  }

  // All references of a create workflow come back exactly when all its nodes are identifiers.
  lemma CreateReadsExactly(def: Definition, nodes: set<Node>, rest: string)
    requires IsCreateDefinition(def, nodes) && rest != "" && !IdentChar(rest[0])
    ensures (forall t, ref | t in def.tasks && ref in def.tasks[t].uses :: ReadsBack(ref, rest))
            <==> forall n | n in nodes :: IsIdentifier(n)
  {
    CreateShaped(def, nodes);
    forall t, ref | t in def.tasks && ref in def.tasks[t].uses
      ensures IsIdentifier(t.node) ==> ReadsBack(ref, rest)
    {
      assert Uses(t, ref);
      ReferenceReadsExactly(ref, rest);
    }
    forall n | n in nodes
      ensures RequestOf(n) in def.tasks[CreateMea(n)].uses && (ReadsBack(RequestOf(n), rest) <==> IsIdentifier(n))
    {
      assert def.tasks[CreateMea(n)] == TaskOf(CreateMea(n));
      ReferenceReadsExactly(RequestOf(n), rest);
    }
  }

  // A hyphen ends the identifier: what is meant for node a-b is looked for under the variable of
  // node a.
  lemma HyphenEndsReference(f: Field, a: string, b: string, rest: string)
    requires IsWord(a)
    ensures Read(Printed(Variable(Var(f, a + "-" + b))) + rest) == VarText(Var(f, a))
  {
    var text, tail := VarText(Var(f, a)), "-" + b + rest;
    FieldIsIdentifier(f);
    assert forall i | 0 <= i < |text| :: IdentChar(text[i]);
    Regrouped(FieldText(f) + "_", a, b, rest);
    WordStops(text, tail);
  }

  lemma Regrouped(f: string, a: string, b: string, rest: string)
    ensures f + (a + "-" + b) + rest == f + a + ("-" + b + rest)
  {
  }
}
