/** What the rules of a node mean, comparison by comparison. */
module EngineLaws {
  import opened Engine

  /** The answer is that very text, that very number, or null; a list of choices is nothing of the kind. */
  predicate Is(answer: Answer, value: Operand) {
    || (answer.Text? && value.TextOperand? && answer.text == value.text)
    || (answer.Number? && value.NumberOperand? && answer.number == value.number)
    || (answer.Null? && value.NullOperand?)
  }

  ghost predicate Says(r: Rule, answer: Answer) {
    match r.op
    case Always => true
    case Eq => Is(answer, r.operand)
    case Neq => !Is(answer, r.operand)
    case In => r.operand.ListOperand? && exists i :: 0 <= i < |r.operand.items| && Is(answer, r.operand.items[i])
    case Includes => answer.Choices? && r.operand.TextOperand? && exists i :: 0 <= i < |answer.choices| && answer.choices[i] == r.operand.text
    case Gt => answer.Number? && r.operand.NumberOperand? && r.operand.number < answer.number
    case Lt => answer.Number? && r.operand.NumberOperand? && answer.number < r.operand.number
  }

  /** Where a rule points: the text END is the end of the walk, the empty id here. */
  function Points(r: Rule): string {
    if r.goto == "END" then "" else r.goto
  }

  ghost predicate FirstSaying(rules: seq<Rule>, answer: Answer, i: int) {
    && 0 <= i < |rules| && Says(rules[i], answer)
    && forall j :: 0 <= j < i ==> !Says(rules[j], answer)
  }

  /** The first rule that speaks for the answer points there. */
  ghost predicate Leads(rules: seq<Rule>, answer: Answer, next: string) {
    exists i :: FirstSaying(rules, answer, i) && next == Points(rules[i])
  }

  ghost predicate Silent(rules: seq<Rule>, answer: Answer) {
    forall i :: 0 <= i < |rules| ==> !Says(rules[i], answer)
  }

  /** The resolution in full: the target of the first rule that speaks, where END ends the walk. */
  ghost predicate Resolves(rules: seq<Rule>, answer: Answer, next: Next) {
    match next
    case Invalid => Silent(rules, answer)
    case End => exists i :: FirstSaying(rules, answer, i) && rules[i].goto == "END"
    case Goto(id) => id != "END" && exists i :: FirstSaying(rules, answer, i) && rules[i].goto == id
  }

  lemma HoldsIsSays(r: Rule, answer: Answer)
    ensures Holds(r.op, answer, r.operand) <==> Says(r, answer)
  {
  }

  /** A node is left along its first rule that speaks for the answer, and stays unresolved exactly when
      none does. */
  lemma ResolveMeans(n: Node, answer: Answer)
    ensures Resolves(n.rules, answer, ResolveNext(n, answer))
    ensures ResolveNext(n, answer).Invalid? <==> Silent(n.rules, answer)
    ensures !ResolveNext(n, answer).Invalid? ==> Leads(n.rules, answer, Target(ResolveNext(n, answer)))
  {
    hide Holds, Says;
    ResolvesToFirstMatch(n.rules, answer);
    forall i | 0 <= i < |n.rules| ensures Holds(n.rules[i].op, answer, n.rules[i].operand) <==> Says(n.rules[i], answer) {
      HoldsIsSays(n.rules[i], answer);
    }
    var r := ResolveNext(n, answer);
    if !r.Invalid? {
      var i :| 0 <= i < |n.rules| && Holds(n.rules[i].op, answer, n.rules[i].operand)
        && (forall j :: 0 <= j < i ==> !Holds(n.rules[j].op, answer, n.rules[j].operand))
        && n.rules[i].goto == (if r.End? then END_NODE else r.nodeId) && (r.Goto? ==> r.nodeId != END_NODE);
      assert FirstSaying(n.rules, answer, i);
    }
  }

  /** A rule in front of a fallback decides by its own comparison alone. */
  lemma RuleBeforeFallback(n: Node, r: Rule, fallback: Rule, answer: Answer)
    requires n.rules == [r, fallback] && fallback.op == Always && r.goto != fallback.goto
    ensures ResolveNext(n, answer) == (if r.goto == "END" then End else Goto(r.goto)) <==>
      match r.op
      case Always => true
      case Eq => Is(answer, r.operand)
      case Neq => !Is(answer, r.operand)
      case In => r.operand.ListOperand? && exists i :: 0 <= i < |r.operand.items| && Is(answer, r.operand.items[i])
      case Includes => answer.Choices? && r.operand.TextOperand? && r.operand.text in answer.choices
      case Gt => answer.Number? && r.operand.NumberOperand? && answer.number > r.operand.number
      case Lt => answer.Number? && r.operand.NumberOperand? && answer.number < r.operand.number
  {
    hide Is, StrictEquals, Holds;
    HoldsIsSays(r, answer);
    HoldsIsSays(fallback, answer);
    assert n.rules[0] == r && n.rules[1..] == [fallback] && [fallback][1..] == [];
    assert FirstMatch([fallback], answer) == if fallback.goto == "END" then End else Goto(fallback.goto);
    assert ResolveNext(n, answer) == (if r.goto == "END" then End else Goto(r.goto)) <==> Says(r, answer);
  }
}
