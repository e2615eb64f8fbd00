/**
 The rule evaluators (internal/alerting/evaluator.go): what the watcher asks of a
 freshly read source value.  Numbers are reals; rounding is not the point here.
 */
module Evaluator {
  import opened Options

  const KIND_THRESHOLD := "threshold"
  const KIND_STATE := "state"

  /** A source reports a number, a token, both or neither. */
  datatype SourceValue = SourceValue(number: Option<real>, token: Option<string>)

  /** The decoded parameters of a rule; `Malformed` when they do not decode for its kind. */
  datatype Params =
    | ThresholdParams(operator: string, bound: real)
    | StateParams(expected: string)
    | Malformed

  datatype Verdict = Undecided | Decided(fired: bool)

  const OPERATORS: set<string> := {">", ">=", "<", "<=", "==", "!="}

  /** The params check run when a rule is created or edited. */
  predicate ValidParams(kind: string, p: Params) {
    || (kind == KIND_THRESHOLD && p.ThresholdParams? && p.operator in OPERATORS)
    || (kind == KIND_STATE && p.StateParams? && p.expected != "")
  }

  function Compare(operator: string, v: real, bound: real): Verdict {
    if operator == ">" then Decided(v > bound)
    else if operator == ">=" then Decided(v >= bound)
    else if operator == "<" then Decided(v < bound)
    else if operator == "<=" then Decided(v <= bound)
    else if operator == "==" then Decided(v == bound)
    else if operator == "!=" then Decided(v != bound)
    else Undecided
  }

  function Sign(x: real): int {
    if x > 0.0 then 1 else if x < 0.0 then -1 else 0
  }

  /** The reference: which signs of `value - bound` an operator lets through. */
  function Accepts(operator: string): set<int> {
    match operator
    case ">" => {1}
    case ">=" => {0, 1}
    case "<" => {-1}
    case "<=" => {-1, 0}
    case "==" => {0}
    case "!=" => {-1, 1}
    case _ => {}
  }

  function Evaluate(kind: string, v: SourceValue, p: Params): (r: Verdict)
    ensures ValidParams(kind, p) ==>
      (r.Undecided? <==> (if kind == KIND_STATE then v.token.None? else v.number.None?))
  {
    if kind == KIND_THRESHOLD then
      if !p.ThresholdParams? || v.number.None? then Undecided
      else Compare(p.operator, v.number.value, p.bound)
    else if kind == KIND_STATE then
      if !p.StateParams? || v.token.None? then Undecided
      else Decided(v.token.value == p.expected)
    else
      Undecided
  }

  /** A decided rule fires exactly when the value is on an accepted side of the bound, or the state is the expected one. */
  lemma FiresExactlyWhen(kind: string, v: SourceValue, p: Params)
    requires ValidParams(kind, p) && Evaluate(kind, v, p).Decided?
    ensures Evaluate(kind, v, p).fired <==>
              if kind == KIND_STATE then v.token == Some(p.expected)
              else Sign(v.number.value - p.bound) in Accepts(p.operator)
  {
  }
}
