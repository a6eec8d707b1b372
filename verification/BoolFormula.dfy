/** The evaluator of Boolean formulas in text form (src/LibBoolEE.cpp). */
module BoolFormula {

  datatype Error = EmptySubExpression | UnknownOperator | ParenthesisParity | NotAFormula | VariableNotFound
  datatype Result<+T> = Ok(value: T) | Err(error: Error)

  type Vals = map<string, bool>

  predicate IsName(c: char) {
    ('a' <= c <= 'z') || ('A' <= c <= 'Z') || ('0' <= c <= '9') || c == '_' || c == '#' || c == '.'
  }

  predicate IsSpace(c: char) {
    c == ' ' || '\t' <= c <= '\r'
  }

  function RemoveWhitespaces(s: string): (r: string)
    ensures |r| <= |s|
  {
    if s == [] then [] else if IsSpace(s[0]) then RemoveWhitespaces(s[1..]) else [s[0]] + RemoveWhitespaces(s[1..])
  }

  // ----- Splitting at an operator

  /** The scan so far: whether a subexpression has begun, its text, the open parentheses, those split off. */
  datatype Scan = Scan(begun: bool, cur: string, parity: int, out: seq<string>)

  const START := Scan(false, [], 0, [])

  function Append(st: Scan, c: char): Scan {
    if st.begun then st.(cur := st.cur + [c]) else st
  }

  /** One character of the scan; `None` for an unknown operator. */
  function Feed(op: char, st: Scan, c: char): Result<Scan> {
    if c == ')' then Ok(Append(st, c).(parity := st.parity - 1))
    else if c == '(' then Ok(Append(st.(begun := true), c).(parity := st.parity + 1))
    else if st.parity != 0 then Ok(Append(st, c))
    else if IsName(c) || c == '!' then Ok(Append(st.(begun := true), c))
    else if !st.begun then Ok(st)
    else if c == op then Ok(st.(out := st.out + [st.cur], cur := []))
    else if c == '&' || c == '|' then Ok(Append(st, c))
    else Err(UnknownOperator)
  }

  function FeedAll(op: char, st: Scan, s: string): Result<Scan>
    decreases s
  {
    if s == [] then Ok(st)
    else
      match Feed(op, st, s[0])
      case Err(e) => Err(e)
      case Ok(next) => FeedAll(op, next, s[1..])
  }

  function Finish(st: Scan): Result<seq<string>> {
    if st.parity != 0 then Err(ParenthesisParity) else Ok(if st.begun then st.out + [st.cur] else st.out)
  }

  /** The subexpressions of a formula at the top-level occurrences of an operator. */
  function Parse(s: string, op: char): Result<seq<string>> {
    match FeedAll(op, START, s)
    case Err(e) => Err(e)
    case Ok(st) => Finish(st)
  }

  // ----- Termination

  /** The characters a scan holds, counting one for each operator it split at. */
  function Size(st: Scan): nat {
    Total(st.out) + |st.out| + |st.cur|
  }

  function Total(out: seq<string>): nat {
    if out == [] then 0 else Total(out[..|out| - 1]) + |out[|out| - 1]|
  }

  lemma {:induction false} TotalHas(out: seq<string>, i: nat)
    requires i < |out|
    ensures |out[i]| <= Total(out)
  {
    if i < |out| - 1 {
      TotalHas(out[..|out| - 1], i);
    }
  }

  lemma TotalSnoc(out: seq<string>, cur: string)
    ensures Total(out + [cur]) == Total(out) + |cur|
  {
    assert (out + [cur])[..|out|] == out;
  }

  lemma FeedSize(op: char, st: Scan, c: char)
    requires Feed(op, st, c).Ok?
    ensures Size(Feed(op, st, c).value) <= Size(st) + 1
  {
    TotalSnoc(st.out, st.cur);
  }

  lemma {:induction false} FeedAllSize(op: char, st: Scan, s: string)
    requires FeedAll(op, st, s).Ok?
    ensures Size(FeedAll(op, st, s).value) <= Size(st) + |s|
    decreases s
  {
    hide Feed, Size;
    if s != [] {
      FeedSize(op, st, s[0]);
      FeedAllSize(op, Feed(op, st, s[0]).value, s[1..]);
    }
  }

  /** Two or more subexpressions are each shorter than the formula. */
  lemma PartsShorter(s: string, op: char, i: nat)
    requires Parse(s, op).Ok? && i < |Parse(s, op).value|
    ensures |Parse(s, op).value[i]| <= |s|
    ensures |Parse(s, op).value| >= 2 ==> |Parse(s, op).value[i]| < |s|
  {
    FeedAllSize(op, START, s);
    var st := FeedAll(op, START, s).value;
    if i < |st.out| {
      TotalHas(st.out, i);
    }
  }

  // ----- Evaluation

  predicate Shorter(parts: seq<string>, n: nat) {
    forall i :: 0 <= i < |parts| ==> |parts[i]| < n
  }

  function Resolve(s: string, vals: Vals): Result<bool>
    decreases |s|, 2
  {
    ResolveRec(RemoveWhitespaces(s), vals)
  }

  function ResolveRec(s: string, vals: Vals): Result<bool>
    decreases |s|, 1
  {
    if s == [] then Err(EmptySubExpression)
    else
      match Parse(s, '|')
      case Err(e) => Err(e)
      case Ok(ors) =>
        if |ors| > 1 then (AllShorter(s, '|'); ResolveParts(ors, vals, false, |s|))
        else if |ors| == 0 then Err(NotAFormula)
        else
          match Parse(s, '&')
          case Err(e) => Err(e)
          case Ok(ands) =>
            if |ands| > 1 then (AllShorter(s, '&'); ResolveParts(ands, vals, true, |s|))
            else if |ands| == 0 then Err(NotAFormula)
            else if s[0] == '!' then
              match Resolve(s[1..], vals)
              case Err(e) => Err(e)
              case Ok(b) => Ok(!b)
            else if s[0] == '(' then LoneParenthesis(s); Resolve(s[1..|s| - 1], vals)
            else if s == "1" then Ok(true)
            else if s == "0" then Ok(false)
            else if s !in vals then Err(VariableNotFound)
            else Ok(vals[s])
  }

  /** All parts are evaluated, then combined: conjunction or disjunction. */
  function ResolveParts(parts: seq<string>, vals: Vals, conj: bool, n: nat): Result<bool>
    requires Shorter(parts, n)
    decreases n, 0, |parts|
  {
    if parts == [] then Ok(conj)
    else
      match Resolve(parts[0], vals)
      case Err(e) => Err(e)
      case Ok(b) =>
        assert Shorter(parts[1..], n);
        match ResolveParts(parts[1..], vals, conj, n)
        case Err(e) => Err(e)
        case Ok(rest) => Ok(if conj then b && rest else b || rest)
  }

  lemma AllShorter(s: string, op: char)
    requires Parse(s, op).Ok? && |Parse(s, op).value| >= 2
    ensures Shorter(Parse(s, op).value, |s|)
  {
    hide Parse;
    forall i | 0 <= i < |Parse(s, op).value| ensures |Parse(s, op).value[i]| < |s| {
      PartsShorter(s, op, i);
    }
  }

  /** A lone opening parenthesis does not pass the scan. */
  lemma LoneParenthesis(s: string)
    requires s != [] && s[0] == '(' && Parse(s, '&').Ok?
    ensures |s| >= 2
  {
    hide Parse;
    LoneFails();
    assert |s| == 1 ==> s == ['('];
  }

  lemma LoneFails()
    ensures Parse(['('], '&').Err?
  {
    var s: string := ['('];
    var a := Append(START.(begun := true), '(');
    var st := a.(parity := 1);
    assert Feed('&', START, '(') == Ok(st);
    assert s[0] == '(' && s[1..] == [];
    assert FeedAll('&', st, []) == Ok(st);
    assert FeedAll('&', START, s) == Ok(st);
  }

  // ----- Formulas and their text

  datatype Formula =
    | Lit(b: bool)
    | Var(name: string)
    | Not(f: Formula)
    | And(l: Formula, r: Formula)
    | Or(l: Formula, r: Formula)
    | Group(f: Formula)

  /** Variables have non-empty names other than the two constants, and a value. */
  predicate Defined(f: Formula, vals: Vals) {
    match f
    case Lit(_) => true
    case Var(name) => name in vals && name != [] && name != "0" && name != "1" && forall i :: 0 <= i < |name| ==> IsName(name[i])
    case Not(g) => Defined(g, vals)
    case And(l, r) => Defined(l, vals) && Defined(r, vals)
    case Or(l, r) => Defined(l, vals) && Defined(r, vals)
    case Group(g) => Defined(g, vals)
  }

  predicate Truth(f: Formula, vals: Vals)
    requires Defined(f, vals)
  {
    match f
    case Lit(b) => b
    case Var(name) => vals[name]
    case Not(g) => !Truth(g, vals)
    case And(l, r) => Truth(l, vals) && Truth(r, vals)
    case Or(l, r) => Truth(l, vals) || Truth(r, vals)
    case Group(g) => Truth(g, vals)
  }

  /** The text of a formula, with parentheses where precedence requires them and where they are written. */
  function Print(f: Formula): string
    decreases f, 2
  {
    if f.Or? then Print(f.l) + "|" + Print(f.r) else PrintAnd(f)
  }

  function PrintAnd(f: Formula): string
    decreases f, 1
  {
    if f.And? then PrintAnd(f.l) + "&" + PrintAnd(f.r) else PrintUnary(f)
  }

  function PrintUnary(f: Formula): string
    decreases f, 0
  {
    match f
    case Lit(b) => if b then "1" else "0"
    case Var(name) => name
    case Not(g) => "!" + PrintUnary(g)
    case And(l, r) => "(" + (PrintAnd(l) + "&" + PrintAnd(r)) + ")"
    case Or(l, r) => "(" + (Print(l) + "|" + Print(r)) + ")"
    case Group(g) => "(" + Print(g) + ")"
  }
}
