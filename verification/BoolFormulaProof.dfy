/** The evaluator computes the truth value of every formula from its text (src/LibBoolEE.cpp). */
module BoolFormulaProof {
  import opened BoolFormula

  // ----- Scanning in pieces

  lemma {:induction false} FeedSplit(op: char, st: Scan, a: string, b: string)
    ensures FeedAll(op, st, a + b) ==
      match FeedAll(op, st, a)
      case Err(e) => Err(e)
      case Ok(mid) => FeedAll(op, mid, b)
    decreases a
  {
    hide Feed;
    if a == [] {
      assert a + b == b;
    } else {
      assert (a + b)[0] == a[0] && (a + b)[1..] == a[1..] + b;
      if Feed(op, st, a[0]).Ok? {
        FeedSplit(op, Feed(op, st, a[0]).value, a[1..], b);
      }
    }
  }

  lemma FeedOne(op: char, st: Scan, c: char)
    ensures FeedAll(op, st, [c]) == Feed(op, st, c)
  {
    assert [c][1..] == [];
  }

  /** Inside parentheses the text only joins the current subexpression. */
  ghost predicate Inside(t: string) {
    forall op, cur, p, out :: InsideAt(op, cur, p, out, t)
  }

  ghost predicate InsideAt(op: char, cur: string, p: int, out: seq<string>, t: string) {
    p >= 1 ==> FeedAll(op, Scan(true, cur, p, out), t) == Ok(Scan(true, cur + t, p, out))
  }

  lemma InsideJoin(a: string, b: string)
    requires Inside(a) && Inside(b)
    ensures Inside(a + b)
  {
    hide FeedAll;
    forall op, cur, p, out ensures InsideAt(op, cur, p, out, a + b) {
      assert InsideAt(op, cur, p, out, a) && InsideAt(op, cur + a, p, out, b);
      FeedSplit(op, Scan(true, cur, p, out), a, b);
      assert cur + a + b == cur + (a + b);
    }
  }

  lemma InsideChar(c: char)
    requires c != '(' && c != ')'
    ensures Inside([c])
  {
    hide FeedAll;
    forall op, cur, p, out ensures InsideAt(op, cur, p, out, [c]) {
      FeedOne(op, Scan(true, cur, p, out), c);
    }
  }

  lemma InsideParens(t: string)
    requires Inside(t)
    ensures Inside("(" + t + ")")
  {
    hide FeedAll;
    forall op, cur, p, out ensures InsideAt(op, cur, p, out, "(" + t + ")") {
      if p >= 1 {
        Parens(op, Scan(true, cur, p, out), t);
      }
    }
  }

  /** A parenthesized text goes through as a whole, from outside or inside. */
  lemma Parens(op: char, st: Scan, t: string)
    requires Inside(t) && st.parity >= 0 && (st.begun || st.cur == [])
    ensures FeedAll(op, st, "(" + t + ")") == Ok(Scan(true, st.cur + ("(" + t + ")"), st.parity, st.out))
  {
    hide FeedAll;
    FeedOne(op, st, '(');
    var mid := Scan(true, st.cur + "(", st.parity + 1, st.out);
    assert Feed(op, st, '(') == Ok(mid);
    assert InsideAt(op, st.cur + "(", st.parity + 1, st.out, t);
    FeedSplit(op, st, "(", t);
    var late := Scan(true, st.cur + "(" + t, st.parity + 1, st.out);
    FeedOne(op, late, ')');
    FeedSplit(op, st, "(" + t, ")");
    assert st.cur + "(" + t + ")" == st.cur + ("(" + t + ")");
  }

  ghost predicate NameText(t: string) {
    forall i :: 0 <= i < |t| ==> IsName(t[i])
  }

  lemma {:induction false} InsideName(t: string)
    requires NameText(t)
    ensures Inside(t)
  {
    if t == [] {
      forall op, cur, p, out ensures InsideAt(op, cur, p, out, t) {
        assert cur + t == cur;
      }
    } else {
      assert IsName(t[0]);
      InsideChar(t[0]);
      InsideName(t[1..]);
      InsideJoin([t[0]], t[1..]);
      assert t == [t[0]] + t[1..];
    }
  }

  /** What `Inside` says of the three ways to print a formula follows from two of them. */
  lemma PrintedAlike(f: Formula)
    ensures !f.Or? ==> Print(f) == PrintAnd(f)
    ensures !f.And? ==> PrintAnd(f) == PrintUnary(f)
    ensures f.And? ==> PrintAnd(f) == PrintAnd(f.l) + "&" + PrintAnd(f.r) && PrintUnary(f) == "(" + PrintAnd(f) + ")"
    ensures f.Or? ==> Print(f) == Print(f.l) + "|" + Print(f.r) && PrintUnary(f) == "(" + Print(f) + ")"
    ensures f.Not? ==> PrintUnary(f) == "!" + PrintUnary(f.f)
    ensures f.Group? ==> PrintUnary(f) == "(" + Print(f.f) + ")"
    ensures f.Lit? ==> PrintUnary(f) == (if f.b then "1" else "0")
    ensures f.Var? ==> PrintUnary(f) == f.name
  {
  }

  lemma {:induction false} InsidePrinted(f: Formula, vals: Vals)
    requires Defined(f, vals)
    ensures Inside(Print(f)) && Inside(PrintAnd(f)) && Inside(PrintUnary(f))
    decreases f
  {
    hide Inside, Print, PrintAnd, PrintUnary;
    PrintedAlike(f);
    match f
    case Lit(b) => InsideName(PrintUnary(f));
    case Var(name) => InsideName(name);
    case Not(g) =>
      InsidePrinted(g, vals);
      InsideChar('!');
      InsideJoin("!", PrintUnary(g));
    case And(l, r) =>
      InsidePrinted(l, vals);
      InsidePrinted(r, vals);
      InsideChar('&');
      InsideThree(PrintAnd(l), "&", PrintAnd(r));
    case Or(l, r) =>
      InsidePrinted(l, vals);
      InsidePrinted(r, vals);
      InsideChar('|');
      InsideThree(Print(l), "|", Print(r));
    case Group(g) =>
      InsidePrinted(g, vals);
      InsideParens(Print(g));
  }

  lemma InsideThree(a: string, b: string, c: string)
    requires Inside(a) && Inside(b) && Inside(c)
    ensures Inside(a + b + c) && Inside("(" + (a + b + c) + ")")
  {
    hide Inside;
    InsideJoin(a, b);
    InsideJoin(a + b, c);
    InsideParens(a + b + c);
  }

  // ----- Text without the operator at top level

  /** At top level the text joins the current subexpression, beginning it if need be. */
  ghost predicate Unit(op: char, t: string) {
    forall begun, cur, out :: UnitAt(op, begun, cur, out, t)
  }

  ghost predicate UnitAt(op: char, begun: bool, cur: string, out: seq<string>, t: string) {
    begun || cur == [] ==> FeedAll(op, Scan(begun, cur, 0, out), t) == Ok(Scan(true, cur + t, 0, out))
  }

  lemma UnitJoin(op: char, a: string, b: string)
    requires Unit(op, a) && Unit(op, b)
    ensures Unit(op, a + b)
  {
    hide FeedAll;
    forall begun, cur, out ensures UnitAt(op, begun, cur, out, a + b) {
      assert UnitAt(op, begun, cur, out, a) && UnitAt(op, true, cur + a, out, b);
      FeedSplit(op, Scan(begun, cur, 0, out), a, b);
      assert cur + a + b == cur + (a + b);
    }
  }

  /** With the other operator in between. */
  lemma UnitThree(op: char, a: string, other: char, b: string)
    requires Unit(op, a) && Unit(op, b) && other != op && (other == '&' || other == '|')
    ensures Unit(op, a + [other] + b)
  {
    hide FeedAll;
    forall begun, cur, out ensures UnitAt(op, begun, cur, out, a + [other] + b) {
      assert UnitAt(op, begun, cur, out, a) && UnitAt(op, true, cur + a + [other], out, b);
      FeedSplit(op, Scan(begun, cur, 0, out), a, [other]);
      FeedOne(op, Scan(true, cur + a, 0, out), other);
      FeedSplit(op, Scan(begun, cur, 0, out), a + [other], b);
      assert cur + a + [other] + b == cur + (a + [other] + b);
    }
  }

  lemma UnitChar(op: char, c: char)
    requires IsName(c) || c == '!'
    ensures Unit(op, [c])
  {
    hide FeedAll;
    forall begun, cur, out ensures UnitAt(op, begun, cur, out, [c]) {
      FeedOne(op, Scan(begun, cur, 0, out), c);
    }
  }

  lemma UnitParens(op: char, t: string)
    requires Inside(t)
    ensures Unit(op, "(" + t + ")")
  {
    hide FeedAll;
    forall begun, cur, out ensures UnitAt(op, begun, cur, out, "(" + t + ")") {
      if begun || cur == [] {
        Parens(op, Scan(begun, cur, 0, out), t);
      }
    }
  }

  lemma {:induction false} UnitName(op: char, t: string)
    requires NameText(t) && t != []
    ensures Unit(op, t)
  {
    hide Unit;
    assert IsName(t[0]);
    UnitChar(op, t[0]);
    if |t| == 1 {
      assert t == [t[0]];
    } else {
      UnitName(op, t[1..]);
      UnitJoin(op, [t[0]], t[1..]);
      assert t == [t[0]] + t[1..];
    }
  }

  lemma {:induction false} UnitUnary(op: char, f: Formula, vals: Vals)
    requires Defined(f, vals)
    ensures Unit(op, PrintUnary(f))
    decreases f
  {
    hide Unit, Inside;
    match f
    case Lit(b) => UnitName(op, PrintUnary(f));
    case Var(name) => UnitName(op, name);
    case Not(g) =>
      UnitUnary(op, g, vals);
      UnitChar(op, '!');
      UnitJoin(op, "!", PrintUnary(g));
    case And(l, r) =>
      InsidePrinted(f, vals);
      UnitParens(op, PrintAnd(f));
    case Or(l, r) =>
      InsidePrinted(f, vals);
      UnitParens(op, Print(f));
    case Group(g) =>
      InsidePrinted(g, vals);
      UnitParens(op, Print(g));
  }

  lemma {:induction false} UnitAnd(f: Formula, vals: Vals)
    requires Defined(f, vals)
    ensures Unit('|', PrintAnd(f))
    decreases f
  {
    hide Unit;
    if f.And? {
      UnitAnd(f.l, vals);
      UnitAnd(f.r, vals);
      UnitThree('|', PrintAnd(f.l), '&', PrintAnd(f.r));
    } else {
      UnitUnary('|', f, vals);
    }
  }

  // ----- Splitting joined texts

  /** Texts with an operator between them. */
  function Joined(op: char, ts: seq<string>): string
    requires ts != []
  {
    if |ts| == 1 then ts[0] else ts[0] + [op] + Joined(op, ts[1..])
  }

  lemma {:induction false} JoinedConcat(op: char, a: seq<string>, b: seq<string>)
    requires a != [] && b != []
    ensures Joined(op, a + b) == Joined(op, a) + [op] + Joined(op, b)
  {
    if |a| == 1 {
      assert (a + b)[1..] == b;
    } else {
      assert (a + b)[1..] == a[1..] + b;
      JoinedConcat(op, a[1..], b);
      assert a[0] + [op] + (Joined(op, a[1..]) + [op] + Joined(op, b)) == a[0] + [op] + Joined(op, a[1..]) + [op] + Joined(op, b);
    }
  }

  ghost predicate Units(op: char, ts: seq<string>) {
    forall i :: 0 <= i < |ts| ==> Unit(op, ts[i])
  }

  lemma {:induction false} FeedJoined(op: char, st: Scan, ts: seq<string>)
    requires ts != [] && Units(op, ts) && (op == '&' || op == '|')
    requires st.parity == 0 && st.cur == []
    ensures FeedAll(op, st, Joined(op, ts)) == Ok(Scan(true, ts[|ts| - 1], 0, st.out + ts[..|ts| - 1]))
    decreases |ts|
  {
    hide FeedAll;
    assert UnitAt(op, st.begun, [], st.out, ts[0]);
    assert [] + ts[0] == ts[0];
    if |ts| == 1 {
      assert st.out + ts[..0] == st.out;
    } else {
      var mid, next := Scan(true, ts[0], 0, st.out), Scan(true, [], 0, st.out + [ts[0]]);
      FeedSplit(op, st, ts[0], [op]);
      FeedOne(op, mid, op);
      FeedSplit(op, st, ts[0] + [op], Joined(op, ts[1..]));
      FeedJoined(op, next, ts[1..]);
      assert st.out + [ts[0]] + ts[1..][..|ts| - 2] == st.out + ts[..|ts| - 1];
    }
  }

  /** Joined texts parse back into the texts. */
  lemma ParseJoined(op: char, ts: seq<string>)
    requires ts != [] && Units(op, ts) && (op == '&' || op == '|')
    ensures Parse(Joined(op, ts), op) == Ok(ts)
  {
    FeedJoined(op, START, ts);
    assert [] + ts[..|ts| - 1] + [ts[|ts| - 1]] == ts;
  }

  // ----- Disjuncts and conjuncts

  function Disjuncts(f: Formula): (ds: seq<Formula>)
    ensures ds != []
  {
    if f.Or? then Disjuncts(f.l) + Disjuncts(f.r) else [f]
  }

  function Conjuncts(f: Formula): (cs: seq<Formula>)
    ensures cs != []
  {
    if f.And? then Conjuncts(f.l) + Conjuncts(f.r) else [f]
  }

  function AndTexts(fs: seq<Formula>): (ts: seq<string>)
    ensures |ts| == |fs| && forall i :: 0 <= i < |fs| ==> ts[i] == PrintAnd(fs[i])
  {
    seq(|fs|, i requires 0 <= i < |fs| => PrintAnd(fs[i]))
  }

  function UnaryTexts(fs: seq<Formula>): (ts: seq<string>)
    ensures |ts| == |fs| && forall i :: 0 <= i < |fs| ==> ts[i] == PrintUnary(fs[i])
  {
    seq(|fs|, i requires 0 <= i < |fs| => PrintUnary(fs[i]))
  }

  ghost predicate AllDefined(fs: seq<Formula>, vals: Vals) {
    forall i :: 0 <= i < |fs| ==> Defined(fs[i], vals)
  }

  lemma {:induction false} DisjunctsText(f: Formula)
    ensures Print(f) == Joined('|', AndTexts(Disjuncts(f)))
    decreases f
  {
    hide PrintAnd;
    if f.Or? {
      DisjunctsText(f.l);
      DisjunctsText(f.r);
      var a, b := Disjuncts(f.l), Disjuncts(f.r);
      assert AndTexts(a + b) == AndTexts(a) + AndTexts(b);
      JoinedConcat('|', AndTexts(a), AndTexts(b));
    }
  }

  lemma {:induction false} ConjunctsText(f: Formula)
    ensures PrintAnd(f) == Joined('&', UnaryTexts(Conjuncts(f)))
    decreases f
  {
    hide PrintUnary;
    if f.And? {
      ConjunctsText(f.l);
      ConjunctsText(f.r);
      var a, b := Conjuncts(f.l), Conjuncts(f.r);
      assert UnaryTexts(a + b) == UnaryTexts(a) + UnaryTexts(b);
      JoinedConcat('&', UnaryTexts(a), UnaryTexts(b));
    }
  }

  lemma {:induction false} DisjunctsDefined(f: Formula, vals: Vals)
    requires Defined(f, vals)
    ensures AllDefined(Disjuncts(f), vals)
    ensures forall i :: 0 <= i < |Disjuncts(f)| ==> !Disjuncts(f)[i].Or?
    decreases f
  {
    if f.Or? {
      DisjunctsDefined(f.l, vals);
      DisjunctsDefined(f.r, vals);
    }
  }

  lemma {:induction false} ConjunctsDefined(f: Formula, vals: Vals)
    requires Defined(f, vals)
    ensures AllDefined(Conjuncts(f), vals)
    decreases f
  {
    if f.And? {
      ConjunctsDefined(f.l, vals);
      ConjunctsDefined(f.r, vals);
    }
  }

  /** The conjunction or disjunction of the truth values of formulas. */
  ghost predicate Combined(fs: seq<Formula>, vals: Vals, conj: bool)
    requires AllDefined(fs, vals)
  {
    if fs == [] then conj
    else
      assert AllDefined(fs[1..], vals);
      if conj then Truth(fs[0], vals) && Combined(fs[1..], vals, conj) else Truth(fs[0], vals) || Combined(fs[1..], vals, conj)
  }

  lemma {:induction false} CombinedConcat(a: seq<Formula>, b: seq<Formula>, vals: Vals, conj: bool)
    requires AllDefined(a, vals) && AllDefined(b, vals)
    ensures AllDefined(a + b, vals)
    ensures Combined(a + b, vals, conj) ==
      if conj then Combined(a, vals, conj) && Combined(b, vals, conj) else Combined(a, vals, conj) || Combined(b, vals, conj)
  {
    if a == [] {
      assert a + b == b;
    } else {
      assert (a + b)[1..] == a[1..] + b;
      CombinedConcat(a[1..], b, vals, conj);
    }
  }

  lemma {:induction false} DisjunctsTruth(f: Formula, vals: Vals)
    requires Defined(f, vals) && AllDefined(Disjuncts(f), vals)
    ensures Truth(f, vals) == Combined(Disjuncts(f), vals, false)
    decreases f
  {
    if f.Or? {
      DisjunctsDefined(f.l, vals);
      DisjunctsDefined(f.r, vals);
      DisjunctsTruth(f.l, vals);
      DisjunctsTruth(f.r, vals);
      hide Combined;
      CombinedConcat(Disjuncts(f.l), Disjuncts(f.r), vals, false);
    }
  }

  lemma {:induction false} ConjunctsTruth(f: Formula, vals: Vals)
    requires Defined(f, vals) && AllDefined(Conjuncts(f), vals)
    ensures Truth(f, vals) == Combined(Conjuncts(f), vals, true)
    decreases f
  {
    if f.And? {
      ConjunctsDefined(f.l, vals);
      ConjunctsDefined(f.r, vals);
      ConjunctsTruth(f.l, vals);
      ConjunctsTruth(f.r, vals);
      hide Combined;
      CombinedConcat(Conjuncts(f.l), Conjuncts(f.r), vals, true);
    }
  }

  // ----- Evaluation of printed formulas

  /** A formula as the operand of a unary operator: grouped if it is binary. */
  function Wrap(f: Formula): Formula {
    if f.And? || f.Or? then Group(f) else f
  }

  lemma WrapIs(f: Formula, vals: Vals)
    requires Defined(f, vals)
    ensures Print(Wrap(f)) == PrintUnary(f) && Defined(Wrap(f), vals) && Truth(Wrap(f), vals) == Truth(f, vals)
  {
    var g := Wrap(f);
    if f.And? || f.Or? {
      assert Defined(g, vals) && Truth(g, vals) == Truth(f, vals);
      assert f.And? ==> Print(f) == PrintAnd(f.l) + "&" + PrintAnd(f.r);
      assert Print(g) == PrintAnd(g) == PrintUnary(g) == "(" + Print(f) + ")";
    } else {
      assert Print(g) == PrintAnd(g) == PrintUnary(g);
    }
  }

  lemma {:induction false} NoSpaces(t: string)
    requires forall i :: 0 <= i < |t| ==> !IsSpace(t[i])
    ensures RemoveWhitespaces(t) == t
  {
    if t != [] {
      NoSpaces(t[1..]);
    }
  }

  ghost predicate Spaceless(t: string) {
    forall i :: 0 <= i < |t| ==> !IsSpace(t[i])
  }

  lemma NameSpaceless(t: string)
    requires NameText(t)
    ensures Spaceless(t)
  {
    forall i | 0 <= i < |t| ensures !IsSpace(t[i]) {
      assert IsName(t[i]);
    }
  }

  lemma SpacelessThree(a: string, c: char, b: string)
    requires Spaceless(a) && Spaceless(b) && !IsSpace(c)
    ensures Spaceless(a + [c] + b)
  {
  }

  lemma SpacelessParens(t: string)
    requires Spaceless(t)
    ensures Spaceless("(" + t + ")")
  {
  }

  lemma {:induction false} PrintedSpaceless(f: Formula, vals: Vals)
    requires Defined(f, vals)
    ensures Spaceless(Print(f)) && Spaceless(PrintAnd(f)) && Spaceless(PrintUnary(f)) && PrintUnary(f) != []
    decreases f
  {
    hide Spaceless;
    assert !f.Or? ==> Print(f) == PrintAnd(f);
    assert !f.And? ==> PrintAnd(f) == PrintUnary(f);
    match f
    case Lit(b) => NameSpaceless(PrintUnary(f));
    case Var(name) => NameSpaceless(name);
    case Not(g) =>
      PrintedSpaceless(g, vals);
      NameSpaceless([]);
      SpacelessThree([], '!', PrintUnary(g));
      assert [] + ['!'] + PrintUnary(g) == "!" + PrintUnary(g);
    case And(l, r) =>
      PrintedSpaceless(l, vals);
      PrintedSpaceless(r, vals);
      SpacelessThree(PrintAnd(l), '&', PrintAnd(r));
      SpacelessParens(PrintAnd(l) + "&" + PrintAnd(r));
    case Or(l, r) =>
      PrintedSpaceless(l, vals);
      PrintedSpaceless(r, vals);
      SpacelessThree(Print(l), '|', Print(r));
      SpacelessParens(Print(l) + "|" + Print(r));
    case Group(g) =>
      PrintedSpaceless(g, vals);
      SpacelessParens(Print(g));
  }

  /** What the evaluator makes of parts that each evaluate to the truth of a formula. */
  lemma {:induction false} PartsTruth(ts: seq<string>, fs: seq<Formula>, vals: Vals, conj: bool, n: nat)
    requires |ts| == |fs| && Shorter(ts, n) && AllDefined(fs, vals)
    requires forall i :: 0 <= i < |ts| ==> Resolve(ts[i], vals) == Ok(Truth(fs[i], vals))
    ensures ResolveParts(ts, vals, conj, n) == Ok(Combined(fs, vals, conj))
    decreases |ts|
  {
    hide Resolve, Truth;
    if ts != [] {
      PartsTruth(ts[1..], fs[1..], vals, conj, n);
    }
  }

  /** The parts of a printed formula at top-level `|`, and below it at top-level `&`. */
  lemma ParsePrinted(f: Formula, vals: Vals)
    requires Defined(f, vals)
    ensures Parse(Print(f), '|') == Ok(AndTexts(Disjuncts(f)))
    ensures !f.Or? ==> Parse(Print(f), '&') == Ok(UnaryTexts(Conjuncts(f)))
  {
    hide Parse, Joined, PrintAnd, PrintUnary, Unit;
    DisjunctsDefined(f, vals);
    DisjunctsText(f);
    forall i | 0 <= i < |Disjuncts(f)| ensures Unit('|', AndTexts(Disjuncts(f))[i]) {
      UnitAnd(Disjuncts(f)[i], vals);
    }
    ParseJoined('|', AndTexts(Disjuncts(f)));
    if !f.Or? {
      ConjunctsDefined(f, vals);
      ConjunctsText(f);
      forall i | 0 <= i < |Conjuncts(f)| ensures Unit('&', UnaryTexts(Conjuncts(f))[i]) {
        UnitUnary('&', Conjuncts(f)[i], vals);
      }
      ParseJoined('&', UnaryTexts(Conjuncts(f)));
    }
  }

  /** The evaluator returns the truth value of every formula from its text. */
  lemma {:induction false} ResolvePrinted(f: Formula, vals: Vals)
    requires Defined(f, vals)
    ensures ResolveRec(Print(f), vals) == Ok(Truth(f, vals))
    decreases |Print(f)|, 2
  {
    hide ResolveRec, Print, Truth;
    NotEmpty(f, vals);
    if f.Or? {
      ResolveOr(f, vals, Print(f));
    } else if f.And? {
      ResolveAnd(f, vals, Print(f));
    } else {
      ResolveUnary(f, vals);
    }
  }

  lemma NotEmpty(f: Formula, vals: Vals)
    requires Defined(f, vals)
    ensures Print(f) != []
  {
    PrintedSpaceless(f, vals);
  }

  /** A part of the text evaluates to the truth of its formula, by the smaller case. */
  lemma {:induction false} ResolvePart(f: Formula, vals: Vals)
    requires Defined(f, vals)
    ensures Resolve(Print(f), vals) == Ok(Truth(f, vals))
    decreases |Print(f)|, 3
  {
    hide ResolveRec;
    PrintedSpaceless(f, vals);
    NoSpaces(Print(f));
    ResolvePrinted(f, vals);
  }

  /** How the evaluator proceeds once the parts are known. */
  lemma AtOr(s: string, vals: Vals, ts: seq<string>)
    requires s != [] && Parse(s, '|') == Ok(ts) && |ts| > 1
    ensures Shorter(ts, |s|) && ResolveRec(s, vals) == ResolveParts(ts, vals, false, |s|)
  {
    hide Parse, ResolveParts;
    AllShorter(s, '|');
  }

  lemma AtAnd(s: string, vals: Vals, ors: seq<string>, ts: seq<string>)
    requires s != [] && Parse(s, '|') == Ok(ors) && |ors| == 1 && Parse(s, '&') == Ok(ts) && |ts| > 1
    ensures Shorter(ts, |s|) && ResolveRec(s, vals) == ResolveParts(ts, vals, true, |s|)
  {
    hide Parse, ResolveParts;
    AllShorter(s, '&');
  }

  /** Any text that splits as that of the formula does evaluates as it does. */
  lemma {:induction false} ResolveOr(f: Formula, vals: Vals, s: string)
    requires Defined(f, vals) && f.Or? && s != [] && Parse(s, '|') == Parse(Print(f), '|')
    ensures ResolveRec(s, vals) == Ok(Truth(f, vals))
    decreases |Print(f)|, 1
  {
    hide Parse, ResolveRec, ResolveParts, Resolve, Truth, Combined, PrintAnd;
    var ds := Disjuncts(f);
    var ts := AndTexts(ds);
    ParsePrinted(f, vals);
    NotEmpty(f, vals);
    assert |ds| == |Disjuncts(f.l)| + |Disjuncts(f.r)|;
    AtOr(s, vals, ts);
    AllShorter(Print(f), '|');
    DisjunctsDefined(f, vals);
    forall i | 0 <= i < |ts| ensures Resolve(ts[i], vals) == Ok(Truth(ds[i], vals)) {
      assert Print(ds[i]) == ts[i];
      ResolvePart(ds[i], vals);
    }
    PartsTruth(ts, ds, vals, false, |s|);
    DisjunctsTruth(f, vals);
  }

  lemma {:induction false} ResolveAnd(f: Formula, vals: Vals, s: string)
    requires Defined(f, vals) && f.And? && s != []
    requires Parse(s, '|') == Parse(Print(f), '|') && Parse(s, '&') == Parse(Print(f), '&')
    ensures ResolveRec(s, vals) == Ok(Truth(f, vals))
    decreases |Print(f)|, 1
  {
    hide Parse, ResolveRec, ResolveParts, Resolve, Truth, Combined, PrintAnd, PrintUnary;
    var cs := Conjuncts(f);
    var ts := UnaryTexts(cs);
    ParsePrinted(f, vals);
    NotEmpty(f, vals);
    assert |cs| == |Conjuncts(f.l)| + |Conjuncts(f.r)|;
    AtAnd(s, vals, AndTexts(Disjuncts(f)), ts);
    AllShorter(Print(f), '&');
    ConjunctsDefined(f, vals);
    forall i | 0 <= i < |ts| ensures Resolve(ts[i], vals) == Ok(Truth(cs[i], vals)) {
      WrapIs(cs[i], vals);
      ResolvePart(Wrap(cs[i]), vals);
    }
    PartsTruth(ts, cs, vals, true, |s|);
    ConjunctsTruth(f, vals);
  }

  /** Without a binary operator at top level: negation, parentheses, a constant or a variable. */
  lemma AtUnary(s: string, vals: Vals, ors: seq<string>, ands: seq<string>)
    requires s != [] && Parse(s, '|') == Ok(ors) && |ors| == 1 && Parse(s, '&') == Ok(ands) && |ands| == 1
    ensures s[0] == '!' && Resolve(s[1..], vals).Ok? ==> ResolveRec(s, vals) == Ok(!Resolve(s[1..], vals).value)
    ensures s[0] == '(' ==> |s| >= 2 && ResolveRec(s, vals) == Resolve(s[1..|s| - 1], vals)
    ensures s == "1" ==> ResolveRec(s, vals) == Ok(true)
    ensures s == "0" ==> ResolveRec(s, vals) == Ok(false)
    ensures s[0] != '!' && s[0] != '(' && s != "1" && s != "0" && s in vals ==> ResolveRec(s, vals) == Ok(vals[s])
  {
    hide Parse, Resolve;
    if s[0] == '(' {
      LoneParenthesis(s);
    }
  }

  lemma {:induction false} ResolveUnary(f: Formula, vals: Vals)
    requires Defined(f, vals) && !f.Or? && !f.And?
    ensures ResolveRec(Print(f), vals) == Ok(Truth(f, vals))
    decreases |Print(f)|, 1
  {
    hide Parse, ResolveRec, Resolve, Print, PrintAnd, PrintUnary;
    var s := Print(f);
    PrintedAlike(f);
    ParsePrinted(f, vals);
    NotEmpty(f, vals);
    assert |Disjuncts(f)| == 1 && |Conjuncts(f)| == 1;
    AtUnary(s, vals, AndTexts(Disjuncts(f)), UnaryTexts(Conjuncts(f)));
    match f
    case Lit(b) =>
    case Var(name) => VarStarts(name);
    case Not(g) =>
      WrapIs(g, vals);
      assert s[1..] == Print(Wrap(g));
      ResolvePart(Wrap(g), vals);
    case Group(g) =>
      assert s[1..|s| - 1] == Print(g);
      ResolvePart(g, vals);
  }

  lemma VarStarts(name: string)
    requires name != [] && forall i :: 0 <= i < |name| ==> IsName(name[i])
    ensures name[0] != '!' && name[0] != '('
  {
    assert IsName(name[0]);
  }

  /** Whatever white space the text has, the evaluator returns the formula's truth value. */
  lemma ResolveIsTruth(f: Formula, vals: Vals, s: string)
    requires Defined(f, vals) && RemoveWhitespaces(s) == Print(f)
    ensures Resolve(s, vals) == Ok(Truth(f, vals))
  {
    hide ResolveRec;
    ResolvePrinted(f, vals);
  }

  // ----- Characters before a formula

  /** Characters that do not begin a subexpression. */
  predicate Junk(j: string) {
    forall i :: 0 <= i < |j| ==> !IsName(j[i]) && j[i] != '!' && j[i] != '(' && j[i] != ')'
  }

  lemma {:induction false} FeedJunk(op: char, j: string)
    requires Junk(j)
    ensures FeedAll(op, START, j) == Ok(START)
  {
    if j != [] {
      assert Feed(op, START, j[0]) == Ok(START);
      FeedJunk(op, j[1..]);
    }
  }

  lemma ParseJunk(op: char, j: string, s: string)
    requires Junk(j)
    ensures Parse(j + s, op) == Parse(s, op)
  {
    hide FeedAll;
    FeedJunk(op, j);
    FeedSplit(op, START, j, s);
  }

  /** A text that begins with something else is looked up as a variable. */
  lemma AtLookup(s: string, vals: Vals, ors: seq<string>, ands: seq<string>)
    requires s != [] && Parse(s, '|') == Ok(ors) && |ors| == 1 && Parse(s, '&') == Ok(ands) && |ands| == 1
    requires s[0] != '!' && s[0] != '(' && !IsName(s[0])
    ensures ResolveRec(s, vals) == if s in vals then Ok(vals[s]) else Err(VariableNotFound)
  {
    hide Parse, Resolve;
    assert IsName('1') && IsName('0');
  }

  lemma JunkFirst(f: Formula, vals: Vals, j: string)
    requires Defined(f, vals) && Junk(j)
    ensures var s := j + Print(f);
      && ResolveRec(s, vals) == (if j == [] || f.Or? || f.And? then Ok(Truth(f, vals))
                                 else if s in vals then Ok(vals[s]) else Err(VariableNotFound))
      && (ResolveRec(s, vals).Ok? <==> j == [] || f.Or? || f.And? || s in vals)
  {
    hide Parse, ResolveRec, Print, Truth;
    var s := j + Print(f);
    ParseJunk('|', j, Print(f));
    ParseJunk('&', j, Print(f));
    NotEmpty(f, vals);
    if j == [] {
      assert s == Print(f);
      ResolvePrinted(f, vals);
    } else if f.Or? {
      ResolveOr(f, vals, s);
    } else if f.And? {
      ResolveAnd(f, vals, s);
    } else {
      ParsePrinted(f, vals);
      assert s[0] == j[0];
      AtLookup(s, vals, AndTexts(Disjuncts(f)), UnaryTexts(Conjuncts(f)));
    }
  }

  /**
   * Characters in front of a formula that begin no subexpression are passed over if and only if the
   * formula has a binary operator at top level; in front of any other formula they make it a variable
   * to be looked up.
   */
  lemma ResolveJunk(f: Formula, vals: Vals, j: string, text: string)
    requires Defined(f, vals) && Junk(j) && RemoveWhitespaces(text) == j + Print(f)
    ensures var s := j + Print(f);
      && Resolve(text, vals) == (if j == [] || f.Or? || f.And? then Ok(Truth(f, vals))
                                 else if s in vals then Ok(vals[s]) else Err(VariableNotFound))
      && (Resolve(text, vals).Ok? <==> j == [] || f.Or? || f.And? || s in vals)
  {
    hide ResolveRec, Print, Truth;
    JunkFirst(f, vals, j);
  }

  // ----- Characters before later disjuncts

  predicate Ampersands(j: string) {
    forall i :: 0 <= i < |j| ==> j[i] == '&'
  }

  /** Disjuncts with characters in front. */
  function JunkTexts(js: seq<string>, fs: seq<Formula>): (ts: seq<string>)
    requires |js| == |fs|
    ensures |ts| == |fs| && forall i :: 0 <= i < |fs| ==> ts[i] == js[i] + PrintAnd(fs[i])
  {
    seq(|fs|, i requires 0 <= i < |fs| => js[i] + PrintAnd(fs[i]))
  }

  /** Once a subexpression has begun, the text joins it. */
  ghost predicate Joins(op: char, t: string) {
    forall cur, out :: JoinsAt(op, cur, out, t)
  }

  ghost predicate JoinsAt(op: char, cur: string, out: seq<string>, t: string) {
    FeedAll(op, Scan(true, cur, 0, out), t) == Ok(Scan(true, cur + t, 0, out))
  }

  lemma {:induction false} AmpersandsJoin(j: string, t: string)
    requires Ampersands(j) && Unit('|', t)
    ensures Joins('|', j + t)
  {
    hide FeedAll;
    if j == [] {
      assert j + t == t;
      forall cur, out ensures JoinsAt('|', cur, out, t) {
        assert UnitAt('|', true, cur, out, t);
      }
    } else {
      AmpersandsJoin(j[1..], t);
      assert j + t == "&" + (j[1..] + t);
      forall cur, out ensures JoinsAt('|', cur, out, j + t) {
        FeedOne('|', Scan(true, cur, 0, out), '&');
        assert JoinsAt('|', cur + "&", out, j[1..] + t);
        FeedSplit('|', Scan(true, cur, 0, out), "&", j[1..] + t);
        assert cur + "&" + (j[1..] + t) == cur + ("&" + (j[1..] + t));
      }
    }
  }

  lemma {:induction false} FeedBegun(op: char, out: seq<string>, ts: seq<string>)
    requires ts != [] && (op == '&' || op == '|') && forall i :: 0 <= i < |ts| ==> Joins(op, ts[i])
    ensures FeedAll(op, Scan(true, [], 0, out), Joined(op, ts)) == Ok(Scan(true, ts[|ts| - 1], 0, out + ts[..|ts| - 1]))
    decreases |ts|
  {
    hide FeedAll;
    var st := Scan(true, [], 0, out);
    assert JoinsAt(op, [], out, ts[0]);
    assert [] + ts[0] == ts[0];
    if |ts| == 1 {
      assert out + ts[..0] == out;
    } else {
      FeedSplit(op, st, ts[0], [op]);
      FeedOne(op, Scan(true, ts[0], 0, out), op);
      FeedSplit(op, st, ts[0] + [op], Joined(op, ts[1..]));
      FeedBegun(op, out + [ts[0]], ts[1..]);
      assert out + [ts[0]] + ts[1..][..|ts| - 2] == out + ts[..|ts| - 1];
    }
  }

  /** The first text without the characters in front of it, the others with them. */
  lemma ParseJunkTexts(j: string, t: string, ts: seq<string>)
    requires Junk(j) && Unit('|', t) && ts != [] && forall i :: 0 <= i < |ts| ==> Joins('|', ts[i])
    ensures Parse(j + t + "|" + Joined('|', ts), '|') == Ok([t] + ts)
  {
    hide Joined, Unit, Joins, Parse;
    var rest := Joined('|', ts);
    assert j + t + "|" + rest == j + (t + "|" + rest);
    ParseJunk('|', j, t + "|" + rest);
    FeedFirstText(t, rest);
    FeedBegun('|', [t], ts);
    LastText(t + "|" + rest, t, ts);
  }

  lemma FeedFirstText(t: string, rest: string)
    requires Unit('|', t)
    ensures FeedAll('|', START, t + "|" + rest) == FeedAll('|', Scan(true, [], 0, [t]), rest)
  {
    hide FeedAll;
    assert UnitAt('|', false, [], [], t);
    assert [] + t == t && [] + [t] == [t];
    FeedSplit('|', START, t, "|");
    FeedOne('|', Scan(true, t, 0, []), '|');
    FeedSplit('|', START, t + "|", rest);
  }

  lemma LastText(s: string, t: string, ts: seq<string>)
    requires ts != [] && FeedAll('|', START, s) == Ok(Scan(true, ts[|ts| - 1], 0, [t] + ts[..|ts| - 1]))
    ensures Parse(s, '|') == Ok([t] + ts)
  {
    hide FeedAll;
    assert [t] + ts[..|ts| - 1] + [ts[|ts| - 1]] == [t] + ts;
  }

  /** Parts evaluate if and only if each does. */
  lemma {:induction false} PartsOk(ts: seq<string>, vals: Vals, conj: bool, n: nat)
    requires Shorter(ts, n)
    ensures ResolveParts(ts, vals, conj, n).Ok? <==> forall i :: 0 <= i < |ts| ==> Resolve(ts[i], vals).Ok?
    decreases |ts|
  {
    hide Resolve;
    if ts != [] {
      PartsOk(ts[1..], vals, conj, n);
      assert forall i :: 0 < i < |ts| ==> ts[i] == ts[1..][i - 1];
    }
  }

  /** One disjunct with ampersands in front. */
  lemma AmpersandPart(f: Formula, vals: Vals, j: string)
    requires Defined(f, vals) && !f.Or? && Ampersands(j)
    ensures var s := j + PrintAnd(f);
      && (Resolve(s, vals).Ok? <==> j == [] || f.And? || s in vals)
      && (j == [] || f.And? ==> Resolve(s, vals) == Ok(Truth(f, vals)))
  {
    hide Resolve, PrintAnd, Truth;
    AndPrinted(f);
    PrintedSpaceless(f, vals);
    assert Spaceless(j + Print(f));
    NoSpaces(j + Print(f));
    ResolveJunk(f, vals, j, j + Print(f));
  }

  lemma AndPrinted(f: Formula)
    requires !f.Or?
    ensures Print(f) == PrintAnd(f)
  {
  }

  /**
   * In front of the first disjunct any characters that begin no subexpression are passed over; in front of
   * a later one ampersands are, if and only if it is a conjunction.
   */
  lemma ResolveJunkDisjuncts(f: Formula, vals: Vals, js: seq<string>, text: string)
    requires Defined(f, vals) && f.Or? && |js| == |Disjuncts(f)|
    requires Junk(js[0]) && (forall i :: 1 <= i < |js| ==> Ampersands(js[i]))
    requires RemoveWhitespaces(text) == Joined('|', JunkTexts(js, Disjuncts(f)))
    ensures var ds, ts := Disjuncts(f), JunkTexts(js, Disjuncts(f));
      && (Resolve(text, vals).Ok? <==> forall i :: 1 <= i < |ds| ==> js[i] == [] || ds[i].And? || ts[i] in vals)
      && ((forall i :: 1 <= i < |ds| ==> js[i] == [] || ds[i].And?) ==> Resolve(text, vals) == Ok(Truth(f, vals)))
  {
    hide Parse, ResolveRec, ResolveParts, Resolve, Truth, Combined, PrintAnd, Joined, Ampersands, Junk;
    var ds, ts := Disjuncts(f), JunkTexts(js, Disjuncts(f));
    var s, parts := Joined('|', ts), [PrintAnd(ds[0])] + ts[1..];
    DisjunctsDefined(f, vals);
    assert |ds| == |Disjuncts(f.l)| + |Disjuncts(f.r)|;
    JunkDisjunctsSplit(ds, vals, js);
    JoinedFirst(ts);
    AtOr(s, vals, parts);
    forall i | 0 <= i < |ds|
      ensures Resolve(parts[i], vals).Ok? <==> i == 0 || js[i] == [] || ds[i].And? || ts[i] in vals
      ensures i == 0 || js[i] == [] || ds[i].And? ==> Resolve(parts[i], vals) == Ok(Truth(ds[i], vals))
    {
      var j := if i == 0 then [] else js[i];
      assert parts[i] == j + PrintAnd(ds[i]);
      assert Ampersands([]) by { NoAmpersands(); }
      AmpersandPart(ds[i], vals, j);
    }
    PartsOk(parts, vals, false, |s|);
    if forall i :: 1 <= i < |ds| ==> js[i] == [] || ds[i].And? {
      PartsTruth(parts, ds, vals, false, |s|);
      DisjunctsTruth(f, vals);
    }
    ResolveIs(text, vals);
  }

  lemma NoAmpersands()
    ensures Ampersands([])
  {
  }

  lemma JunkDisjunctsSplit(ds: seq<Formula>, vals: Vals, js: seq<string>)
    requires |js| == |ds| > 1 && AllDefined(ds, vals) && Junk(js[0]) && (forall i :: 1 <= i < |js| ==> Ampersands(js[i]))
    ensures Parse(Joined('|', JunkTexts(js, ds)), '|') == Ok([PrintAnd(ds[0])] + JunkTexts(js, ds)[1..])
  {
    hide Parse, PrintAnd, Joined, Unit, Joins, Ampersands, Junk;
    var ts := JunkTexts(js, ds);
    forall i | 1 <= i < |ds| ensures Joins('|', ts[i]) {
      UnitAnd(ds[i], vals);
      AmpersandsJoin(js[i], PrintAnd(ds[i]));
    }
    UnitAnd(ds[0], vals);
    JoinedFirst(ts);
    ParseJunkTexts(js[0], PrintAnd(ds[0]), ts[1..]);
  }

  lemma ResolveIs(text: string, vals: Vals)
    ensures Resolve(text, vals) == ResolveRec(RemoveWhitespaces(text), vals)
  {
  }

  lemma JoinedFirst(ts: seq<string>)
    requires |ts| > 1
    ensures Joined('|', ts) == ts[0] + "|" + Joined('|', ts[1..]) && Joined('|', ts) != []
  {
  }

  // ----- The loops

  /** The scan with positions: where the current subexpression starts, or -1. */
  method SingleParse(formula: string, op: char) returns (r: Result<seq<string>>)
    requires op == '&' || op == '|'
    ensures r == Parse(formula, op)
  {
    hide FeedAll;
    var start, parity, parts := -1, 0, [];
    ghost var st := START;
    var i := 0;
    assert formula[0..] == formula;
    while i < |formula|
      invariant 0 <= i <= |formula| && -1 <= start <= i && parity == st.parity && parts == st.out
      invariant st.begun <==> start >= 0
      invariant st.cur == if start >= 0 then formula[start..i] else []
      invariant FeedAll(op, st, formula[i..]) == FeedAll(op, START, formula)
    {
      var c := formula[i];
      FeedFirst(op, st, formula, i);
      assert start >= 0 ==> formula[start..i + 1] == formula[start..i] + [c];
      assert formula[i..i + 1] == [c] && [] + [c] == [c];
      if c == ')' {
        parity := parity - 1;
      } else if c == '(' {
        parity := parity + 1;
        if start == -1 {
          start := i;
        }
      } else if parity == 0 {
        if start == -1 {
          if IsName(c) || c == '!' {
            start := i;
          }
        } else if !(IsName(c) || c == '!') {
          if op == c {
            parts := parts + [formula[start..i]];
            start := i + 1;
          } else if c != '&' && c != '|' {
            return Err(UnknownOperator);
          }
        }
      }
      st := Feed(op, st, c).value;
      i := i + 1;
    }
    FeedEnd(op, st);
    assert formula[|formula|..] == [];
    assert FeedAll(op, START, formula) == Ok(st);
    assert start >= 0 ==> formula[start..] == st.cur;
    if start != -1 {
      parts := parts + [formula[start..]];
    }
    if parity != 0 {
      return Err(ParenthesisParity);
    }
    r := Ok(parts);
  }

  lemma FeedFirst(op: char, st: Scan, s: string, i: nat)
    requires i < |s|
    ensures FeedAll(op, st, s[i..]) ==
      match Feed(op, st, s[i])
      case Err(e) => Err(e)
      case Ok(next) => FeedAll(op, next, s[i + 1..])
  {
    hide Feed;
    assert s[i..][0] == s[i] && s[i..][1..] == s[i + 1..];
  }

  lemma FeedEnd(op: char, st: Scan)
    ensures FeedAll(op, st, []) == Ok(st)
  {
  }

  method StripWhitespaces(source: string) returns (result: string)
    ensures result == RemoveWhitespaces(source)
  {
    result := [];
    var i := 0;
    assert source[0..] == source;
    while i < |source|
      invariant 0 <= i <= |source| && result + RemoveWhitespaces(source[i..]) == RemoveWhitespaces(source)
    {
      assert source[i..][0] == source[i] && source[i..][1..] == source[i + 1..];
      if !IsSpace(source[i]) {
        assert result + ([source[i]] + RemoveWhitespaces(source[i + 1..])) == (result + [source[i]]) + RemoveWhitespaces(source[i + 1..]);
        result := result + [source[i]];
      }
      i := i + 1;
    }
    assert source[|source|..] == [] && result + [] == result;
  }
}
