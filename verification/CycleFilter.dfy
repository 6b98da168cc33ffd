/**
 * The cycle search compiles a nested filter to a SQL condition. Here the condition is the
 * sequence of tokens the compiler emits; it is read back with the precedence rules of SQL and
 * evaluated in three-valued logic.
 */
module CycleFilter {
  import opened Common

  datatype Value = Null | Text(text: string) | Number(numeral: string) | Flag(flag: bool) | Many(items: seq<Value>)

  datatype Comparison = EQ | NE | GT | LT | GE | LE

  datatype Operator =
    | Compare(comparison: Comparison)
    | Contains | BeginsWith
    | In | NotIn
    | Between | NotBetween
    | IsNull | NotNull
    | Other(name: string)

  datatype Combinator = AndAll | OrAny

  datatype Node =
    | Group(combinator: Combinator, rules: seq<Node>)
    | Rule(field: string, operator: Operator, value: Value)

  const FIELDS: set<string> :=
    {"stationName", "jobName", "cycleStatus", "standardCycle", "shiftName", "businessDate", "startTime", "endTime"}

  datatype Token =
    | LParen | RParen | Comma
    | KAnd | KOr | KNot | KTrue | KFalse | KIn | KBetween | KIs | KNull | KIlike
    | Column(name: string)
    | Operate(op: Comparison)
    | Param(value: Value)

  // ---------------------------------------------------------------------------
  // The compiler
  // ---------------------------------------------------------------------------

  /** String(value). */
  function ToText(v: Value): string {
    match v
    case Null => "null"
    case Text(t) => t
    case Number(n) => n
    case Flag(b) => if b then "true" else "false"
    case Many(items) => ItemsText(items)
  }

  function ItemsText(items: seq<Value>): string {
    if items == [] then ""
    else
      var first := if items[0].Null? then "" else ToText(items[0]);
      if |items| == 1 then first else first + "," + ItemsText(items[1..])
  }

  /** Joining an empty list is an error, so callers must rule it out. */
  function Join(parts: seq<seq<Token>>, sep: Token): seq<Token>
    requires parts != []
  {
    if |parts| == 1 then parts[0] else parts[0] + [sep] + Join(parts[1..], sep)
  }

  function Params(values: seq<Value>): (r: seq<seq<Token>>)
    ensures |r| == |values|
  {
    seq(|values|, i requires 0 <= i < |values| => [Param(values[i])])
  }

  function EmitRule(field: string, operator: Operator, v: Value): seq<Token> {
    if field !in FIELDS then [KTrue]
    else
      var col := Column(field);
      match operator
      case Compare(c) => [col, Operate(c), Param(v)]
      case Contains => [col, KIlike, Param(Text("%" + ToText(v) + "%"))]
      case BeginsWith => [col, KIlike, Param(Text(ToText(v) + "%"))]
      case In =>
        if !v.Many? || v.items == [] then [KFalse]
        else [col, KIn, LParen] + Join(Params(v.items), Comma) + [RParen]
      case NotIn =>
        if !v.Many? || v.items == [] then [KTrue]
        else [col, KNot, KIn, LParen] + Join(Params(v.items), Comma) + [RParen]
      case Between =>
        if !v.Many? || |v.items| != 2 then [KTrue]
        else [col, KBetween, Param(v.items[0]), KAnd, Param(v.items[1])]
      case NotBetween =>
        if !v.Many? || |v.items| != 2 then [KTrue]
        else [col, KNot, KBetween, Param(v.items[0]), KAnd, Param(v.items[1])]
      case IsNull => [col, KIs, KNull]
      case NotNull => [col, KIs, KNot, KNull]
      case Other(_) => [KTrue]
  }

  function WithoutEmpty(parts: seq<seq<Token>>): seq<seq<Token>> {
    if parts == [] then []
    else (if parts[0] == [] then [] else [parts[0]]) + WithoutEmpty(parts[1..])
  }

  function Separator(c: Combinator): Token {
    if c == AndAll then KAnd else KOr
  }

  function Emit(node: Node): seq<Token>
    decreases node, 1
  {
    match node
    case Rule(field, operator, value) => EmitRule(field, operator, value)
    case Group(combinator, rules) =>
      var parts := WithoutEmpty(EmitAll(node));
      if parts == [] then [KTrue] else [LParen] + Join(parts, Separator(combinator)) + [RParen]
  }

  function EmitAll(node: Node): (r: seq<seq<Token>>)
    requires node.Group?
    ensures |r| == |node.rules|
    decreases node, 0
  {
    seq(|node.rules|, i requires 0 <= i < |node.rules| => Emit(node.rules[i]))
  }

  /** WHERE TRUE, followed by the compiled filter if there is one. */
  function Where(query: Option<Node>): seq<Token> {
    [KTrue] + match query
              case None => []
              case Some(node) =>
                var expr := Emit(node);
                if expr != [] then [KAnd, LParen] + expr + [RParen] else []
  }

  // ---------------------------------------------------------------------------
  // Reading a condition back
  // ---------------------------------------------------------------------------

  datatype Atom =
    | Constant(holds: bool)
    | Relation(column: string, op: Comparison, value: Value)
    | Like(column: string, pattern: Value)
    | Member(column: string, negated: bool, values: seq<Value>)
    | Range(column: string, negated: bool, lo: Value, hi: Value)
    | Missing(column: string, negated: bool)

  datatype Condition = Leaf(atom: Atom) | All(all: seq<Condition>) | Any(any: seq<Condition>)

  datatype Parsed<T> = Failure | Success(result: T, rest: seq<Token>)

  /** param ("," param)* ")" */
  function ParseParams(ts: seq<Token>): (p: Parsed<seq<Value>>)
    ensures p.Success? ==> |p.rest| < |ts|
  {
    if |ts| < 2 || !ts[0].Param? then Failure
    else if ts[1] == RParen then Success([ts[0].value], ts[2..])
    else if ts[1] != Comma then Failure
    else
      match ParseParams(ts[2..])
      case Failure => Failure
      case Success(values, rest) => Success([ts[0].value] + values, rest)
  }

  /** The part of a predicate after its column. */
  function ParsePredicate(column: string, ts: seq<Token>): (p: Parsed<Atom>)
    ensures p.Success? ==> |p.rest| < |ts|
  {
    if |ts| < 2 then Failure
    else
      match ts[0]
      case Operate(op) => if ts[1].Param? then Success(Relation(column, op, ts[1].value), ts[2..]) else Failure
      case KIlike => if ts[1].Param? then Success(Like(column, ts[1].value), ts[2..]) else Failure
      case KIn => ParseMembers(column, false, ts[1..])
      case KBetween => ParseRange(column, false, ts[1..])
      case KNot =>
        if ts[1] == KIn then ParseMembers(column, true, ts[2..])
        else if ts[1] == KBetween then ParseRange(column, true, ts[2..])
        else Failure
      case KIs =>
        if ts[1] == KNull then Success(Missing(column, false), ts[2..])
        else if ts[1] == KNot && |ts| > 2 && ts[2] == KNull then Success(Missing(column, true), ts[3..])
        else Failure
      case _ => Failure
  }

  function ParseMembers(column: string, negated: bool, ts: seq<Token>): (p: Parsed<Atom>)
    ensures p.Success? ==> |p.rest| < |ts|
  {
    if ts == [] || ts[0] != LParen then Failure
    else
      match ParseParams(ts[1..])
      case Failure => Failure
      case Success(values, rest) => Success(Member(column, negated, values), rest)
  }

  /** BETWEEN claims the AND that follows its first bound. */
  function ParseRange(column: string, negated: bool, ts: seq<Token>): (p: Parsed<Atom>)
    ensures p.Success? ==> |p.rest| < |ts|
  {
    if |ts| >= 3 && ts[0].Param? && ts[1] == KAnd && ts[2].Param?
    then Success(Range(column, negated, ts[0].value, ts[2].value), ts[3..])
    else Failure
  }

  function ParsePrimary(ts: seq<Token>): (p: Parsed<Condition>)
    ensures p.Success? ==> |p.rest| < |ts|
    decreases |ts|, 0
  {
    if ts == [] then Failure
    else
      match ts[0]
      case KTrue => Success(Leaf(Constant(true)), ts[1..])
      case KFalse => Success(Leaf(Constant(false)), ts[1..])
      case Column(name) =>
        (match ParsePredicate(name, ts[1..])
         case Failure => Failure
         case Success(atom, rest) => Success(Leaf(atom), rest))
      case LParen =>
        (match ParseOr(ts[1..])
         case Failure => Failure
         case Success(c, rest) => if rest != [] && rest[0] == RParen then Success(c, rest[1..]) else Failure)
      case _ => Failure
  }

  function ParseAndList(ts: seq<Token>): (p: Parsed<seq<Condition>>)
    ensures p.Success? ==> |p.rest| < |ts| && p.result != []
    decreases |ts|, 1
  {
    match ParsePrimary(ts)
    case Failure => Failure
    case Success(c, rest) =>
      if rest != [] && rest[0] == KAnd then
        match ParseAndList(rest[1..])
        case Failure => Failure
        case Success(cs, rest') => Success([c] + cs, rest')
      else Success([c], rest)
  }

  function ParseOrList(ts: seq<Token>): (p: Parsed<seq<Condition>>)
    ensures p.Success? ==> |p.rest| < |ts| && p.result != []
    decreases |ts|, 2
  {
    match ParseAndList(ts)
    case Failure => Failure
    case Success(cs, rest) =>
      var c := if |cs| == 1 then cs[0] else All(cs);
      if rest != [] && rest[0] == KOr then
        match ParseOrList(rest[1..])
        case Failure => Failure
        case Success(ds, rest') => Success([c] + ds, rest')
      else Success([c], rest)
  }

  /** A disjunction of conjunctions of predicates: OR binds weakest. */
  function ParseOr(ts: seq<Token>): (p: Parsed<Condition>)
    ensures p.Success? ==> |p.rest| < |ts|
    decreases |ts|, 3
  {
    match ParseOrList(ts)
    case Failure => Failure
    case Success(cs, rest) => Success(if |cs| == 1 then cs[0] else Any(cs), rest)
  }

  // ---------------------------------------------------------------------------
  // What the compiler means to say
  // ---------------------------------------------------------------------------

  function RuleAtom(field: string, operator: Operator, v: Value): Atom {
    if field !in FIELDS then Constant(true)
    else
      match operator
      case Compare(c) => Relation(field, c, v)
      case Contains => Like(field, Text("%" + ToText(v) + "%"))
      case BeginsWith => Like(field, Text(ToText(v) + "%"))
      case In => if !v.Many? || v.items == [] then Constant(false) else Member(field, false, v.items)
      case NotIn => if !v.Many? || v.items == [] then Constant(true) else Member(field, true, v.items)
      case Between => if !v.Many? || |v.items| != 2 then Constant(true) else Range(field, false, v.items[0], v.items[1])
      case NotBetween => if !v.Many? || |v.items| != 2 then Constant(true) else Range(field, true, v.items[0], v.items[1])
      case IsNull => Missing(field, false)
      case NotNull => Missing(field, true)
      case Other(_) => Constant(true)
  }

  function Tree(node: Node): Condition
    decreases node, 1
  {
    match node
    case Rule(field, operator, value) => Leaf(RuleAtom(field, operator, value))
    case Group(combinator, rules) =>
      if rules == [] then Leaf(Constant(true))
      else if |rules| == 1 then Tree(rules[0])
      else if combinator == AndAll then All(Trees(node)) else Any(Trees(node))
  }

  function Trees(node: Node): (r: seq<Condition>)
    requires node.Group?
    ensures |r| == |node.rules|
    decreases node, 0
  {
    seq(|node.rules|, i requires 0 <= i < |node.rules| => Tree(node.rules[i]))
  }

  // ---------------------------------------------------------------------------
  // Reading back what was emitted
  // ---------------------------------------------------------------------------

  lemma AfterFirst(t: Token, a: seq<Token>, rest: seq<Token>)
    ensures ([t] + a + rest)[0] == t && ([t] + a + rest)[1..] == a + rest
  {
  }

  lemma {:induction false} ParamsReadBack(values: seq<Value>, rest: seq<Token>)
    requires values != []
    ensures ParseParams(Join(Params(values), Comma) + ([RParen] + rest)) == Success(values, rest)
  {
    var closing := [RParen] + rest;
    if |values| == 1 {
      assert Join(Params(values), Comma) + closing == [Param(values[0]), RParen] + rest;
      LastParam(values[0], rest);
      assert [values[0]] == values;
    } else {
      var more := Join(Params(values[1..]), Comma) + closing;
      ParamsReadBack(values[1..], rest);
      assert Params(values)[1..] == Params(values[1..]);
      assert Join(Params(values), Comma) + closing == [Param(values[0]), Comma] + more;
      NextParam(values[0], more, values[1..], rest);
      assert [values[0]] + values[1..] == values;
    }
  }

  lemma LastParam(v: Value, rest: seq<Token>)
    ensures ParseParams([Param(v), RParen] + rest) == Success([v], rest)
  {
    assert ([Param(v), RParen] + rest)[2..] == rest;
  }

  lemma NextParam(v: Value, more: seq<Token>, values: seq<Value>, rest: seq<Token>)
    requires ParseParams(more) == Success(values, rest)
    ensures ParseParams([Param(v), Comma] + more) == Success([v] + values, rest)
  {
    assert ([Param(v), Comma] + more)[2..] == more;
  }

  /** A parenthesized list of parameters. */
  function Listed(values: seq<Value>): seq<Token>
    requires values != []
  {
    [LParen] + (Join(Params(values), Comma) + [RParen])
  }

  lemma MembersReadBack(column: string, negated: bool, values: seq<Value>, rest: seq<Token>)
    requires values != []
    ensures ParseMembers(column, negated, Listed(values) + rest) == Success(Member(column, negated, values), rest)
  {
    var params := Join(Params(values), Comma);
    AfterFirst(LParen, params + [RParen], rest);
    assert params + [RParen] + rest == params + ([RParen] + rest);
    ParamsReadBack(values, rest);
  }

  /** What follows the column in a rule that is no constant. */
  function RuleTail(operator: Operator, v: Value): seq<Token> {
    match operator
    case Compare(c) => [Operate(c), Param(v)]
    case Contains => [KIlike, Param(Text("%" + ToText(v) + "%"))]
    case BeginsWith => [KIlike, Param(Text(ToText(v) + "%"))]
    case In => if v.Many? && v.items != [] then [KIn] + Listed(v.items) else []
    case NotIn => if v.Many? && v.items != [] then [KNot] + ([KIn] + Listed(v.items)) else []
    case Between => if v.Many? && |v.items| == 2 then [KBetween] + Bounds(v.items[0], v.items[1]) else []
    case NotBetween => if v.Many? && |v.items| == 2 then [KNot] + ([KBetween] + Bounds(v.items[0], v.items[1])) else []
    case IsNull => [KIs, KNull]
    case NotNull => [KIs, KNot, KNull]
    case Other(_) => []
  }

  function Bounds(lo: Value, hi: Value): seq<Token> {
    [Param(lo), KAnd, Param(hi)]
  }

  lemma RuleShape(field: string, operator: Operator, v: Value)
    ensures var rule := EmitRule(field, operator, v);
            match RuleAtom(field, operator, v)
            case Constant(b) => rule == [if b then KTrue else KFalse]
            case _ => field in FIELDS && RuleTail(operator, v) != [] && rule == [Column(field)] + RuleTail(operator, v)
  {
  }

  lemma RuleReadBack(field: string, operator: Operator, v: Value, rest: seq<Token>)
    ensures EmitRule(field, operator, v) != []
    ensures ParsePrimary(EmitRule(field, operator, v) + rest) == Success(Leaf(RuleAtom(field, operator, v)), rest)
  {
    RuleShape(field, operator, v);
    if RuleAtom(field, operator, v).Constant? {
      ConstantReadBack(RuleAtom(field, operator, v).holds, rest);
    } else {
      TailReadBack(field, operator, v, rest);
      ColumnReadBack(field, RuleTail(operator, v), RuleAtom(field, operator, v), rest);
    }
  }

  lemma ConstantReadBack(b: bool, rest: seq<Token>)
    ensures ParsePrimary([if b then KTrue else KFalse] + rest) == Success(Leaf(Constant(b)), rest)
  {
    assert ([if b then KTrue else KFalse] + rest)[1..] == rest;
  }

  lemma ColumnReadBack(column: string, tail: seq<Token>, atom: Atom, rest: seq<Token>)
    requires ParsePredicate(column, tail + rest) == Success(atom, rest)
    ensures ParsePrimary([Column(column)] + tail + rest) == Success(Leaf(atom), rest)
  {
    AfterFirst(Column(column), tail, rest);
  }

  lemma TailReadBack(field: string, operator: Operator, v: Value, rest: seq<Token>)
    requires !RuleAtom(field, operator, v).Constant? && field in FIELDS
    ensures ParsePredicate(field, RuleTail(operator, v) + rest) == Success(RuleAtom(field, operator, v), rest)
  {
    match operator
    case In => ListReadBack(field, v.items, rest);
    case NotIn => NotListReadBack(field, v.items, rest);
    case Between => RangeReadBack(field, v.items[0], v.items[1], rest);
    case NotBetween => NotRangeReadBack(field, v.items[0], v.items[1], rest);
    case NotNull => assert ([KIs, KNot, KNull] + rest)[3..] == rest;
    case Other(_) =>
    case _ => assert (RuleTail(operator, v) + rest)[2..] == rest;
  }

  lemma ListReadBack(field: string, values: seq<Value>, rest: seq<Token>)
    requires values != []
    ensures ParsePredicate(field, [KIn] + Listed(values) + rest) == Success(Member(field, false, values), rest)
  {
    MembersReadBack(field, false, values, rest);
    AfterFirst(KIn, Listed(values), rest);
  }

  lemma AfterTwo(t: Token, u: Token, a: seq<Token>, rest: seq<Token>)
    ensures ([t] + ([u] + a) + rest)[0] == t && ([t] + ([u] + a) + rest)[1] == u
    ensures ([t] + ([u] + a) + rest)[2..] == a + rest
  {
  }

  lemma NotListReadBack(field: string, values: seq<Value>, rest: seq<Token>)
    requires values != []
    ensures ParsePredicate(field, [KNot] + ([KIn] + Listed(values)) + rest) == Success(Member(field, true, values), rest)
  {
    MembersReadBack(field, true, values, rest);
    AfterTwo(KNot, KIn, Listed(values), rest);
  }

  lemma BoundsReadBack(field: string, negated: bool, lo: Value, hi: Value, rest: seq<Token>)
    ensures ParseRange(field, negated, Bounds(lo, hi) + rest) == Success(Range(field, negated, lo, hi), rest)
  {
    assert (Bounds(lo, hi) + rest)[3..] == rest;
  }

  lemma RangeReadBack(field: string, lo: Value, hi: Value, rest: seq<Token>)
    ensures ParsePredicate(field, [KBetween] + Bounds(lo, hi) + rest) == Success(Range(field, false, lo, hi), rest)
  {
    BoundsReadBack(field, false, lo, hi, rest);
    AfterFirst(KBetween, Bounds(lo, hi), rest);
  }

  lemma NotRangeReadBack(field: string, lo: Value, hi: Value, rest: seq<Token>)
    ensures ParsePredicate(field, [KNot] + ([KBetween] + Bounds(lo, hi)) + rest) == Success(Range(field, true, lo, hi), rest)
  {
    BoundsReadBack(field, true, lo, hi, rest);
    AfterTwo(KNot, KBetween, Bounds(lo, hi), rest);
  }

  lemma {:induction false} NothingToDrop(parts: seq<seq<Token>>)
    requires forall i :: 0 <= i < |parts| ==> parts[i] != []
    ensures WithoutEmpty(parts) == parts
  {
    if parts != [] {
      NothingToDrop(parts[1..]);
      assert [parts[0]] + parts[1..] == parts;
    }
  }

  /** No compiled part is ever empty, so a group joins its parts exactly when it has rules. */
  lemma {:induction false} EmitNotEmpty(node: Node)
    ensures Emit(node) != []
    ensures node.Group? ==> WithoutEmpty(EmitAll(node)) == EmitAll(node)
  {
    match node
    case Rule(field, operator, value) =>
      RuleReadBack(field, operator, value, []);
    case Group(_, rules) =>
      forall i | 0 <= i < |rules|
        ensures EmitAll(node)[i] != []
      {
        EmitNotEmpty(rules[i]);
      }
      NothingToDrop(EmitAll(node));
  }

  /** What has to hold of each part for a joined list to be read back. */
  ghost predicate ReadsBack(part: seq<Token>, c: Condition) {
    forall rest :: ParsePrimary(part + rest) == Success(c, rest)
  }

  lemma JoinMore(parts: seq<seq<Token>>, sep: Token, rest: seq<Token>)
    requires |parts| > 1
    ensures Join(parts, sep) + rest == parts[0] + ([sep] + (Join(parts[1..], sep) + rest))
  {
  }

  lemma {:induction false} AndListReadBack(parts: seq<seq<Token>>, cs: seq<Condition>, rest: seq<Token>)
    requires |parts| == |cs| > 0 && (rest == [] || rest[0] != KAnd)
    requires forall i :: 0 <= i < |parts| ==> ReadsBack(parts[i], cs[i])
    ensures ParseAndList(Join(parts, KAnd) + rest) == Success(cs, rest)
  {
    if |parts| == 1 {
      assert ParsePrimary(parts[0] + rest) == Success(cs[0], rest);
      assert cs == [cs[0]];
    } else {
      var tail := [KAnd] + (Join(parts[1..], KAnd) + rest);
      JoinMore(parts, KAnd, rest);
      assert ParsePrimary(parts[0] + tail) == Success(cs[0], tail);
      AndListReadBack(parts[1..], cs[1..], rest);
      assert tail[1..] == Join(parts[1..], KAnd) + rest;
      assert [cs[0]] + cs[1..] == cs;
    }
  }

  lemma OneReadBack(part: seq<Token>, c: Condition, rest: seq<Token>)
    requires ReadsBack(part, c) && (rest == [] || rest[0] != KAnd)
    ensures ParseAndList(part + rest) == Success([c], rest)
  {
    assert ParsePrimary(part + rest) == Success(c, rest);
  }

  lemma {:induction false} OrListReadBack(parts: seq<seq<Token>>, cs: seq<Condition>, rest: seq<Token>)
    requires |parts| == |cs| > 0 && (rest == [] || (rest[0] != KAnd && rest[0] != KOr))
    requires forall i :: 0 <= i < |parts| ==> ReadsBack(parts[i], cs[i])
    ensures ParseOrList(Join(parts, KOr) + rest) == Success(cs, rest)
  {
    if |parts| == 1 {
      OneReadBack(parts[0], cs[0], rest);
      assert cs == [cs[0]];
    } else {
      OrListReadBack(parts[1..], cs[1..], rest);
      OrListMore(parts, cs, rest);
    }
  }

  lemma OrListMore(parts: seq<seq<Token>>, cs: seq<Condition>, rest: seq<Token>)
    requires |parts| == |cs| > 1 && ReadsBack(parts[0], cs[0])
    requires ParseOrList(Join(parts[1..], KOr) + rest) == Success(cs[1..], rest)
    ensures ParseOrList(Join(parts, KOr) + rest) == Success(cs, rest)
  {
    var more := Join(parts[1..], KOr) + rest;
    var tail := [KOr] + more;
    assert tail[1..] == more;
    JoinMore(parts, KOr, rest);
    OneReadBack(parts[0], cs[0], tail);
    OrListStep(parts[0] + tail, cs[0], tail, cs[1..], rest);
    assert [cs[0]] + cs[1..] == cs;
  }

  lemma OrListStep(ts: seq<Token>, c: Condition, tail: seq<Token>, cs: seq<Condition>, rest: seq<Token>)
    requires ParseAndList(ts) == Success([c], tail) && tail != [] && tail[0] == KOr
    requires ParseOrList(tail[1..]) == Success(cs, rest)
    ensures ParseOrList(ts) == Success([c] + cs, rest)
  {
  }

  lemma GroupReadBack(combinator: Combinator, parts: seq<seq<Token>>, cs: seq<Condition>, rest: seq<Token>)
    requires |parts| == |cs| > 0
    requires forall i :: 0 <= i < |parts| ==> ReadsBack(parts[i], cs[i])
    ensures ParsePrimary([LParen] + Join(parts, Separator(combinator)) + [RParen] + rest)
         == Success(if |cs| == 1 then cs[0] else if combinator == AndAll then All(cs) else Any(cs), rest)
  {
    var closing := [RParen] + rest;
    var c := if |cs| == 1 then cs[0] else if combinator == AndAll then All(cs) else Any(cs);
    assert ParseOr(Join(parts, Separator(combinator)) + closing) == Success(c, closing) by {
      if combinator == AndAll {
        AndGroupReadBack(parts, cs, closing);
      } else {
        OrGroupReadBack(parts, cs, closing);
      }
    }
    BracketedReadBack(Join(parts, Separator(combinator)), c, rest);
  }

  lemma AndGroupReadBack(parts: seq<seq<Token>>, cs: seq<Condition>, rest: seq<Token>)
    requires |parts| == |cs| > 0 && (rest == [] || (rest[0] != KAnd && rest[0] != KOr))
    requires forall i :: 0 <= i < |parts| ==> ReadsBack(parts[i], cs[i])
    ensures ParseOr(Join(parts, KAnd) + rest) == Success(if |cs| == 1 then cs[0] else All(cs), rest)
  {
    AndListReadBack(parts, cs, rest);
    OneGroup(Join(parts, KAnd) + rest, cs, rest);
  }

  lemma OneGroup(ts: seq<Token>, cs: seq<Condition>, rest: seq<Token>)
    requires ParseAndList(ts) == Success(cs, rest) && (rest == [] || rest[0] != KOr)
    ensures ParseOr(ts) == Success(if |cs| == 1 then cs[0] else All(cs), rest)
  {
    assert ParseOrList(ts) == Success([if |cs| == 1 then cs[0] else All(cs)], rest);
  }

  lemma OrGroupReadBack(parts: seq<seq<Token>>, cs: seq<Condition>, rest: seq<Token>)
    requires |parts| == |cs| > 0 && (rest == [] || (rest[0] != KAnd && rest[0] != KOr))
    requires forall i :: 0 <= i < |parts| ==> ReadsBack(parts[i], cs[i])
    ensures ParseOr(Join(parts, KOr) + rest) == Success(if |cs| == 1 then cs[0] else Any(cs), rest)
  {
    OrListReadBack(parts, cs, rest);
  }

  lemma BracketedReadBack(inner: seq<Token>, c: Condition, rest: seq<Token>)
    requires ParseOr(inner + ([RParen] + rest)) == Success(c, [RParen] + rest)
    ensures ParsePrimary([LParen] + inner + [RParen] + rest) == Success(c, rest)
  {
    var ts := [LParen] + inner + [RParen] + rest;
    assert ts[1..] == inner + ([RParen] + rest);
    assert ([RParen] + rest)[1..] == rest;
  }

  /** Reading a compiled filter back gives its tree: the brackets keep every group together. */
  lemma {:induction false} FilterReadBack(node: Node, rest: seq<Token>)
    ensures ParsePrimary(Emit(node) + rest) == Success(Tree(node), rest)
    decreases node
  {
    match node
    case Rule(field, operator, value) =>
      RuleReadBack(field, operator, value, rest);
    case Group(combinator, rules) =>
      EmitNotEmpty(node);
      if rules == [] {
        assert (Emit(node) + rest)[1..] == rest;
      } else {
        forall i | 0 <= i < |rules|
          ensures ReadsBack(EmitAll(node)[i], Trees(node)[i])
        {
          forall more
            ensures ParsePrimary(Emit(rules[i]) + more) == Success(Tree(rules[i]), more)
          {
            FilterReadBack(rules[i], more);
          }
        }
        GroupReadBack(combinator, EmitAll(node), Trees(node), rest);
      }
  }

  // ---------------------------------------------------------------------------
  // Three-valued evaluation
  // ---------------------------------------------------------------------------

  datatype Truth = T | F | U

  datatype Ordering = Less | Equal | Greater

  /** How the database compares values that are not null, and matches patterns. */
  datatype Db = Db(compare: (Value, Value) -> Ordering, ilike: (Value, Value) -> bool)

  type Row = map<string, Value>

  function Cell(row: Row, column: string): Value {
    if column in row then row[column] else Null
  }

  function Truthful(b: bool): Truth {
    if b then T else F
  }

  function And3(a: Truth, b: Truth): Truth {
    if a == F || b == F then F else if a == T && b == T then T else U
  }

  function Or3(a: Truth, b: Truth): Truth {
    if a == T || b == T then T else if a == F && b == F then F else U
  }

  function Not3(a: Truth): Truth {
    match a
    case T => F
    case F => T
    case U => U
  }

  function Satisfies(o: Ordering, op: Comparison): bool {
    match op
    case EQ => o == Equal
    case NE => o != Equal
    case GT => o == Greater
    case LT => o == Less
    case GE => o != Less
    case LE => o != Greater
  }

  function Compare3(db: Db, cell: Value, op: Comparison, v: Value): Truth {
    if cell.Null? || v.Null? then U else Truthful(Satisfies(db.compare(cell, v), op))
  }

  function Member3(db: Db, cell: Value, values: seq<Value>): Truth {
    if values == [] then F else Or3(Compare3(db, cell, EQ, values[0]), Member3(db, cell, values[1..]))
  }

  function EvalAtom(db: Db, row: Row, a: Atom): Truth {
    match a
    case Constant(b) => Truthful(b)
    case Relation(c, op, v) => Compare3(db, Cell(row, c), op, v)
    case Like(c, p) => if Cell(row, c).Null? || p.Null? then U else Truthful(db.ilike(Cell(row, c), p))
    case Member(c, negated, values) =>
      var m := Member3(db, Cell(row, c), values);
      if negated then Not3(m) else m
    case Range(c, negated, lo, hi) =>
      var between := And3(Compare3(db, Cell(row, c), GE, lo), Compare3(db, Cell(row, c), LE, hi));
      if negated then Not3(between) else between
    case Missing(c, negated) => Truthful(Cell(row, c).Null? != negated)
  }

  function AndAll3(vs: seq<Truth>): Truth {
    if vs == [] then T else And3(vs[0], AndAll3(vs[1..]))
  }

  function OrAny3(vs: seq<Truth>): Truth {
    if vs == [] then F else Or3(vs[0], OrAny3(vs[1..]))
  }

  function Eval(db: Db, row: Row, c: Condition): Truth {
    match c
    case Leaf(a) => EvalAtom(db, row, a)
    case All(cs) => AndAll3(seq(|cs|, i requires 0 <= i < |cs| => Eval(db, row, cs[i])))
    case Any(cs) => OrAny3(seq(|cs|, i requires 0 <= i < |cs| => Eval(db, row, cs[i])))
  }

  /** The rows a WHERE clause keeps: it must read as one condition, and that must be true, not unknown. */
  function Keeps(db: Db, row: Row, clause: seq<Token>): bool {
    match ParseOr(clause)
    case Failure => false
    case Success(c, rest) => rest == [] && Eval(db, row, c) == T
  }

  // ---------------------------------------------------------------------------
  // Two-valued meaning
  // ---------------------------------------------------------------------------

  predicate Is(db: Db, cell: Value, op: Comparison, v: Value) {
    !cell.Null? && !v.Null? && Satisfies(db.compare(cell, v), op)
  }

  /** A rule holds when its column and what it is compared with are known and compare so. */
  predicate RuleHolds(db: Db, row: Row, field: string, operator: Operator, v: Value) {
    field in FIELDS ==>
      var cell := Cell(row, field);
      match operator
      case Compare(c) => Is(db, cell, c, v)
      case Contains => !cell.Null? && db.ilike(cell, Text("%" + ToText(v) + "%"))
      case BeginsWith => !cell.Null? && db.ilike(cell, Text(ToText(v) + "%"))
      case In => v.Many? && exists k :: 0 <= k < |v.items| && Is(db, cell, EQ, v.items[k])
      case NotIn => v.Many? ==> forall k :: 0 <= k < |v.items| ==> Is(db, cell, NE, v.items[k])
      case Between => v.Many? && |v.items| == 2 ==> Is(db, cell, GE, v.items[0]) && Is(db, cell, LE, v.items[1])
      case NotBetween => v.Many? && |v.items| == 2 ==> Is(db, cell, LT, v.items[0]) || Is(db, cell, GT, v.items[1])
      case IsNull => cell.Null?
      case NotNull => !cell.Null?
      case Other(_) => true
  }

  predicate Accepts(db: Db, row: Row, node: Node) {
    match node
    case Rule(field, operator, value) => RuleHolds(db, row, field, operator, value)
    case Group(combinator, rules) =>
      || rules == []
      || (combinator == AndAll && forall k :: 0 <= k < |rules| ==> Accepts(db, row, rules[k]))
      || (combinator == OrAny && exists k :: 0 <= k < |rules| && Accepts(db, row, rules[k]))
  }

  lemma {:induction false} MemberMeaning(db: Db, cell: Value, values: seq<Value>)
    ensures Member3(db, cell, values) == T <==> exists k :: 0 <= k < |values| && Is(db, cell, EQ, values[k])
    ensures Member3(db, cell, values) == F <==> forall k :: 0 <= k < |values| ==> Is(db, cell, NE, values[k])
  {
    if values != [] {
      MemberMeaning(db, cell, values[1..]);
      if Is(db, cell, EQ, values[0]) {
        assert !Is(db, cell, NE, values[0]);
      }
      assert forall k :: 0 < k < |values| ==> values[k] == values[1..][k - 1];
      assert forall k :: 0 <= k < |values| - 1 ==> values[1..][k] == values[k + 1];
    }
  }

  lemma RuleMeaning(db: Db, row: Row, field: string, operator: Operator, v: Value)
    ensures EvalAtom(db, row, RuleAtom(field, operator, v)) == T <==> RuleHolds(db, row, field, operator, v)
  {
    if v.Many? {
      MemberMeaning(db, Cell(row, field), v.items);
    }
  }

  lemma {:induction false} AndAllMeaning(vs: seq<Truth>)
    ensures AndAll3(vs) == T <==> forall k :: 0 <= k < |vs| ==> vs[k] == T
  {
    if vs != [] {
      AndAllMeaning(vs[1..]);
      assert forall k :: 0 < k < |vs| ==> vs[k] == vs[1..][k - 1];
    }
  }

  lemma {:induction false} OrAnyMeaning(vs: seq<Truth>)
    ensures OrAny3(vs) == T <==> exists k :: 0 <= k < |vs| && vs[k] == T
  {
    if vs != [] {
      OrAnyMeaning(vs[1..]);
      assert forall k :: 0 < k < |vs| ==> vs[k] == vs[1..][k - 1];
      assert forall k :: 0 <= k < |vs| - 1 ==> vs[1..][k] == vs[k + 1];
    }
  }

  function Evals(db: Db, row: Row, cs: seq<Condition>): (r: seq<Truth>)
    ensures |r| == |cs| && forall i :: 0 <= i < |cs| ==> r[i] == Eval(db, row, cs[i])
  {
    seq(|cs|, i requires 0 <= i < |cs| => Eval(db, row, cs[i]))
  }

  lemma {:induction false} TreeMeaning(db: Db, row: Row, node: Node)
    ensures Eval(db, row, Tree(node)) == T <==> Accepts(db, row, node)
    decreases node
  {
    match node
    case Rule(field, operator, value) =>
      RuleMeaning(db, row, field, operator, value);
    case Group(combinator, rules) =>
      forall i | 0 <= i < |rules|
        ensures Eval(db, row, Tree(rules[i])) == T <==> Accepts(db, row, rules[i])
      {
        TreeMeaning(db, row, rules[i]);
      }
      if |rules| > 1 {
        GroupMeaning(db, row, node);
      }
  }

  lemma GroupMeaning(db: Db, row: Row, node: Node)
    requires node.Group? && |node.rules| > 1
    requires forall i :: 0 <= i < |node.rules| ==>
               (Eval(db, row, Tree(node.rules[i])) == T <==> Accepts(db, row, node.rules[i]))
    ensures Eval(db, row, Tree(node)) == T <==> Accepts(db, row, node)
  {
    var cs := Trees(node);
    var vs := Evals(db, row, cs);
    assert forall i :: 0 <= i < |node.rules| ==> (vs[i] == T <==> Accepts(db, row, node.rules[i]));
    if node.combinator == AndAll {
      AndAllMeaning(vs);
      assert Eval(db, row, All(cs)) == AndAll3(vs);
    } else {
      OrAnyMeaning(vs);
      assert Eval(db, row, Any(cs)) == OrAny3(vs);
    }
  }

  /**
   * The search keeps exactly the rows the filter accepts, for every filter, every row with
   * possible nulls and every way the database may compare values.
   */
  lemma FilterKeepsMeaning(db: Db, row: Row, query: Option<Node>)
    ensures Keeps(db, row, Where(query)) <==> query.None? || Accepts(db, row, query.value)
  {
    match query
    case None =>
      TrueAlone();
      assert Where(None) == [KTrue];
    case Some(node) =>
      EmitNotEmpty(node);
      ClauseReadBack(node);
      assert Where(query) == [KTrue, KAnd, LParen] + Emit(node) + [RParen];
      ClauseMeaning(db, row, node);
  }

  lemma TrueAlone()
    ensures ParseOr([KTrue]) == Success(Leaf(Constant(true)), [])
  {
    TrueReadsBack();
    assert [KTrue] + [] == [KTrue];
    assert ParseAndList([KTrue]) == Success([Leaf(Constant(true))], []);
    OneGroup([KTrue], [Leaf(Constant(true))], []);
  }

  lemma ClauseMeaning(db: Db, row: Row, node: Node)
    ensures Eval(db, row, All([Leaf(Constant(true)), Tree(node)])) == T <==> Accepts(db, row, node)
  {
    var cs := [Leaf(Constant(true)), Tree(node)];
    var vs := Evals(db, row, cs);
    TreeMeaning(db, row, node);
    AndAllMeaning(vs);
    assert Eval(db, row, All(cs)) == AndAll3(vs);
    assert vs[0] == T && (vs[1] == T <==> Accepts(db, row, node));
  }

  lemma BracketsReadBack(node: Node)
    ensures ReadsBack([LParen] + Emit(node) + [RParen], Tree(node))
  {
    assert ReadsBack(Emit(node), Tree(node)) by {
      forall rest
        ensures ParsePrimary(Emit(node) + rest) == Success(Tree(node), rest)
      {
        FilterReadBack(node, rest);
      }
    }
    forall rest
      ensures ParsePrimary([LParen] + Emit(node) + [RParen] + rest) == Success(Tree(node), rest)
    {
      GroupReadBack(AndAll, [Emit(node)], [Tree(node)], rest);
    }
  }

  lemma TrueReadsBack()
    ensures ReadsBack([KTrue], Leaf(Constant(true)))
  {
    forall rest
      ensures ParsePrimary([KTrue] + rest) == Success(Leaf(Constant(true)), rest)
    {
      assert ([KTrue] + rest)[1..] == rest;
    }
  }

  lemma ClauseReadBack(node: Node)
    ensures ParseOr([KTrue, KAnd, LParen] + Emit(node) + [RParen]) == Success(All([Leaf(Constant(true)), Tree(node)]), [])
  {
    var brackets := [LParen] + Emit(node) + [RParen];
    TrueReadsBack();
    BracketsReadBack(node);
    TwoReadBack([KTrue], Leaf(Constant(true)), brackets, Tree(node));
    assert [KTrue] + [KAnd] + brackets == [KTrue, KAnd, LParen] + Emit(node) + [RParen];
  }

  lemma TwoReadBack(part0: seq<Token>, c0: Condition, part1: seq<Token>, c1: Condition)
    requires ReadsBack(part0, c0) && ReadsBack(part1, c1)
    ensures ParseOr(part0 + [KAnd] + part1) == Success(All([c0, c1]), [])
  {
    var parts := [part0, part1];
    AndGroupReadBack(parts, [c0, c1], []);
    assert Join(parts, KAnd) == part0 + [KAnd] + part1;
    assert Join(parts, KAnd) + [] == part0 + [KAnd] + part1;
  }

  // ---------------------------------------------------------------------------
  // What rules say of the cells
  // ---------------------------------------------------------------------------

  /** The columns a rule can speak of. */
  predicate Filterable(field: string) {
    || field == "stationName" || field == "jobName" || field == "cycleStatus" || field == "standardCycle"
    || field == "shiftName" || field == "businessDate" || field == "startTime" || field == "endTime"
  }

  lemma FieldsAre(field: string)
    ensures field in FIELDS <==> Filterable(field)
  {
    assert FIELDS == {"stationName", "jobName", "cycleStatus", "standardCycle", "shiftName", "businessDate", "startTime", "endTime"};
  }

  /** A rule on any other name, and a rule with an unknown operator, lets every row through; a null test on a column tests it. */
  lemma RulesOnFields(db: Db, row: Row, field: string, operator: Operator, v: Value)
    ensures !Filterable(field) || operator.Other? ==> Accepts(db, row, Rule(field, operator, v))
    ensures Filterable(field) ==>
              && (Accepts(db, row, Rule(field, IsNull, v)) <==> Cell(row, field) == Null)
              && (Accepts(db, row, Rule(field, NotNull, v)) <==> Cell(row, field) != Null)
  {
    FieldsAre(field);
  }

  /** The database orders values as these ranks do. */
  ghost predicate OrdersBy(db: Db, rank: Value -> int) {
    forall a, b :: db.compare(a, b) == if rank(a) < rank(b) then Less else if rank(a) == rank(b) then Equal else Greater
  }

  /** In such a database a comparison rule compares the ranks of cell and value. */
  lemma ComparisonRules(db: Db, row: Row, field: string, v: Value, rank: Value -> int)
    requires OrdersBy(db, rank) && Filterable(field) && !Cell(row, field).Null? && !v.Null?
    ensures var x, y := rank(Cell(row, field)), rank(v);
            && (Accepts(db, row, Rule(field, Compare(EQ), v)) <==> x == y)
            && (Accepts(db, row, Rule(field, Compare(NE), v)) <==> x != y)
            && (Accepts(db, row, Rule(field, Compare(GT), v)) <==> x > y)
            && (Accepts(db, row, Rule(field, Compare(LT), v)) <==> x < y)
            && (Accepts(db, row, Rule(field, Compare(GE), v)) <==> x >= y)
            && (Accepts(db, row, Rule(field, Compare(LE), v)) <==> x <= y)
  {
    FieldsAre(field);
  }

  lemma RangeRules(db: Db, row: Row, field: string, lo: Value, hi: Value, rank: Value -> int)
    requires OrdersBy(db, rank) && Filterable(field) && !Cell(row, field).Null? && !lo.Null? && !hi.Null?
    ensures var x := rank(Cell(row, field));
            && (Accepts(db, row, Rule(field, Between, Many([lo, hi]))) <==> rank(lo) <= x <= rank(hi))
            && (Accepts(db, row, Rule(field, NotBetween, Many([lo, hi]))) <==> !(rank(lo) <= x <= rank(hi)))
  {
    FieldsAre(field);
  }

  /** The text of a value as String gives it: a list joins the texts of its items by commas, a missing item leaves nothing. */
  lemma {:induction false} TextOfValue(items: seq<Value>, v: Value)
    ensures match v
            case Null => ToText(v) == "null"
            case Flag(b) => ToText(v) == if b then "true" else "false"
            case Text(t) => ToText(v) == t
            case Number(n) => ToText(v) == n
            case Many(_) => true
    ensures ToText(Many([])) == ""
    ensures ToText(Many(items + [v])) ==
            ToText(Many(items)) + (if items == [] then "" else ",") + if v.Null? then "" else ToText(v)
  {
    if items != [] {
      TextOfValue(items[1..], v);
      assert (items + [v])[1..] == items[1..] + [v];
      if |items| == 1 {
        assert items[1..] + [v] == [v];
      }
    }
  }

  /** Pattern matching: % is any text, _ any character, a backslash takes the next character as it is. */
  predicate LikeMatch(fold: char -> char, pattern: string, s: string)
    decreases |pattern|
  {
    if pattern == "" then s == ""
    else if pattern[0] == '%' then exists k :: 0 <= k <= |s| && LikeMatch(fold, pattern[1..], s[k..])
    else if s == "" then false
    else if pattern[0] == '_' then LikeMatch(fold, pattern[1..], s[1..])
    else if pattern[0] == '\\' then
      |pattern| > 1 && fold(pattern[1]) == fold(s[0]) && LikeMatch(fold, pattern[2..], s[1..])
    else fold(pattern[0]) == fold(s[0]) && LikeMatch(fold, pattern[1..], s[1..])
  }

  predicate NoWildcard(s: string) {
    forall i :: 0 <= i < |s| ==> s[i] != '%' && s[i] != '_' && s[i] != '\\'
  }

  /** The text stands at position k of s, up to the case of letters. */
  predicate StandsAt(fold: char -> char, text: string, s: string, k: int) {
    0 <= k && k + |text| <= |s| && forall i :: 0 <= i < |text| ==> fold(text[i]) == fold(s[k + i])
  }

  lemma AnyMatchesAll(fold: char -> char, s: string)
    ensures LikeMatch(fold, "%", s)
  {
    assert LikeMatch(fold, "%"[1..], s[|s|..]);
  }

  lemma {:induction false} PrefixMatch(fold: char -> char, text: string, s: string)
    requires NoWildcard(text)
    ensures LikeMatch(fold, text + "%", s) <==> StandsAt(fold, text, s, 0)
  {
    if text == "" {
      assert "" + "%" == "%";
      AnyMatchesAll(fold, s);
    } else if s != "" {
      PrefixMatch(fold, text[1..], s[1..]);
      assert (text + "%")[1..] == text[1..] + "%";
      assert StandsAt(fold, text, s, 0) <==> fold(text[0]) == fold(s[0]) && StandsAt(fold, text[1..], s[1..], 0) by {
        StandsFirst(fold, text, s);
      }
    }
  }

  lemma StandsFirst(fold: char -> char, text: string, s: string)
    requires text != "" && s != ""
    ensures StandsAt(fold, text, s, 0) <==> fold(text[0]) == fold(s[0]) && StandsAt(fold, text[1..], s[1..], 0)
  {
    if fold(text[0]) == fold(s[0]) && StandsAt(fold, text[1..], s[1..], 0) {
      assert forall i :: 0 < i < |text| ==> text[i] == text[1..][i - 1] && s[i] == s[1..][i - 1];
    }
    if StandsAt(fold, text, s, 0) {
      assert forall i :: 0 <= i < |text| - 1 ==> text[1..][i] == text[i + 1] && s[1..][i] == s[i + 1];
    }
  }

  lemma WithinMatch(fold: char -> char, text: string, s: string)
    requires NoWildcard(text)
    ensures LikeMatch(fold, "%" + text + "%", s) <==> exists k :: StandsAt(fold, text, s, k)
  {
    var rest := text + "%";
    assert "%" + text + "%" == "%" + rest && ("%" + rest)[1..] == rest;
    forall k | 0 <= k <= |s|
      ensures LikeMatch(fold, rest, s[k..]) <==> StandsAt(fold, text, s, k)
    {
      PrefixMatch(fold, text, s[k..]);
      assert forall i :: 0 <= i < |s| - k ==> s[k..][i] == s[k + i];
    }
    if k :| StandsAt(fold, text, s, k) {
      assert LikeMatch(fold, rest, s[k..]);
    }
  }

  /** The database matches patterns over texts in this way, whatever it takes for the case of a letter. */
  ghost predicate MatchesLike(db: Db, fold: char -> char) {
    forall s, p :: db.ilike(Text(s), Text(p)) == LikeMatch(fold, p, s)
  }

  lemma LikeRules(db: Db, row: Row, field: string, v: Value, s: string)
    requires field in FIELDS && Cell(row, field) == Text(s)
    ensures Accepts(db, row, Rule(field, Contains, v)) == db.ilike(Text(s), Text("%" + ToText(v) + "%"))
    ensures Accepts(db, row, Rule(field, BeginsWith, v)) == db.ilike(Text(s), Text(ToText(v) + "%"))
  {
  }

  /** Without wildcards in the value, the text rules look for it within the cell, or at its beginning. */
  lemma TextRules(db: Db, row: Row, field: string, v: Value, fold: char -> char)
    requires MatchesLike(db, fold) && Filterable(field) && Cell(row, field).Text? && NoWildcard(ToText(v))
    ensures var s := Cell(row, field).text;
            && (Accepts(db, row, Rule(field, Contains, v)) <==> exists k :: StandsAt(fold, ToText(v), s, k))
            && (Accepts(db, row, Rule(field, BeginsWith, v)) <==> StandsAt(fold, ToText(v), s, 0))
  {
    var s, t := Cell(row, field).text, ToText(v);
    FieldsAre(field);
    assert db.ilike(Text(s), Text("%" + t + "%")) <==> exists k :: StandsAt(fold, t, s, k) by {
      WithinMatch(fold, t, s);
    }
    assert db.ilike(Text(s), Text(t + "%")) <==> StandsAt(fold, t, s, 0) by {
      PrefixMatch(fold, t, s);
    }
    LikeRules(db, row, field, v, s);
  }
}
