/**
 * The canonical text of a JSON value, with object keys sorted, and the key of a metric value
 * request built from it. A number is represented by the numeral JSON prints for it.
 */
module CanonicalKey {
  import opened Common
  import opened Text

  datatype Entry<V> = Entry(key: string, value: V)

  datatype Json =
    | JNull
    | JBool(flag: bool)
    | JNum(numeral: string)
    | JStr(text: string)
    | JArr(items: seq<Json>)
    | JObj(fields: seq<Entry<Json>>)

  predicate IsNumeralChar(c: char) {
    '0' <= c <= '9' || c == '-' || c == '+' || c == '.' || c == 'e'
  }

  predicate DistinctKeys<V>(s: seq<Entry<V>>) {
    forall i, j :: 0 <= i < j < |s| ==> s[i].key != s[j].key
  }

  /** Numerals are numerals, and no object has a key twice. */
  predicate WellFormed(v: Json) {
    match v
    case JNum(n) => n != "" && ('0' <= n[0] <= '9' || n[0] == '-') && forall c :: c in n ==> IsNumeralChar(c)
    case JArr(items) => forall i :: 0 <= i < |items| ==> WellFormed(items[i])
    case JObj(fields) => DistinctKeys(fields) && forall i :: 0 <= i < |fields| ==> WellFormed(fields[i].value)
    case _ => true
  }

  /** Property access on an object. */
  function FieldOf<V>(fields: seq<Entry<V>>, key: string): Option<V> {
    if fields == [] then None
    else if fields[0].key == key then Some(fields[0].value)
    else FieldOf(fields[1..], key)
  }

  /** Equal up to the order of object keys. */
  predicate Equivalent(a: Json, b: Json) {
    match a
    case JArr(items) =>
      b.JArr? && |items| == |b.items| && forall i :: 0 <= i < |items| ==> Equivalent(items[i], b.items[i])
    case JObj(fields) =>
      && b.JObj?
      && (forall i :: 0 <= i < |fields| ==>
            var g := FieldOf(b.fields, fields[i].key);
            g.Some? && Equivalent(fields[i].value, g.value))
      && (forall j :: 0 <= j < |b.fields| ==> FieldOf(fields, b.fields[j].key).Some?)
    case _ => a == b
  }

  // ---------------------------------------------------------------------------
  // The canonical text
  // ---------------------------------------------------------------------------

  const HEX := "0123456789abcdef"

  /** The escapes of section 7 of RFC 8259, short forms where they exist. */
  function EscapeChar(c: char): string {
    if c == '"' then "\\\""
    else if c == '\\' then "\\\\"
    else if c == '\U{8}' then "\\b"
    else if c == '\t' then "\\t"
    else if c == '\n' then "\\n"
    else if c == '\U{C}' then "\\f"
    else if c == '\r' then "\\r"
    else if c < ' ' then "\\u00" + [HEX[c as int / 16], HEX[c as int % 16]]
    else [c]
  }

  function Escape(s: string): string {
    if s == "" then "" else EscapeChar(s[0]) + Escape(s[1..])
  }

  function Quote(s: string): string {
    "\"" + Escape(s) + "\""
  }

  /** Array.prototype.join with a comma. */
  function Join(parts: seq<string>): string {
    if parts == [] then ""
    else if |parts| == 1 then parts[0]
    else parts[0] + "," + Join(parts[1..])
  }

  function Insert<V>(e: Entry<V>, s: seq<Entry<V>>): seq<Entry<V>> {
    if s == [] then [e]
    else if TextBefore(e.key, s[0].key) then [e] + s
    else [s[0]] + Insert(e, s[1..])
  }

  function Sort<V>(s: seq<Entry<V>>): seq<Entry<V>> {
    if s == [] then [] else Insert(s[0], Sort(s[1..]))
  }

  function EntryTexts(s: seq<Entry<string>>): (r: seq<string>)
    ensures |r| == |s|
  {
    if s == [] then [] else [Quote(s[0].key) + ":" + s[0].value] + EntryTexts(s[1..])
  }

  function Stringify(v: Json): string
    decreases v, 1
  {
    match v
    case JNull => "null"
    case JBool(flag) => if flag then "true" else "false"
    case JNum(n) => n
    case JStr(s) => Quote(s)
    case JArr(items) => "[" + Join(StringifyItems(items)) + "]"
    case JObj(fields) => "{" + Join(EntryTexts(Sort(StringifyFields(fields)))) + "}"
  }

  function StringifyItems(items: seq<Json>): (r: seq<string>)
    ensures |r| == |items|
    decreases items, 0
  {
    if items == [] then [] else [Stringify(items[0])] + StringifyItems(items[1..])
  }

  function StringifyFields(fields: seq<Entry<Json>>): (r: seq<Entry<string>>)
    ensures |r| == |fields|
    decreases fields, 0
  {
    if fields == [] then []
    else [Entry(fields[0].key, Stringify(fields[0].value))] + StringifyFields(fields[1..])
  }

  // ---------------------------------------------------------------------------
  // Sorting first, printing afterwards
  // ---------------------------------------------------------------------------

  /** The value with the fields of every object sorted. */
  function Canon(v: Json): Json
    decreases v, 1
  {
    match v
    case JArr(items) => JArr(CanonItems(items))
    case JObj(fields) => JObj(Sort(CanonFields(fields)))
    case _ => v
  }

  function CanonItems(items: seq<Json>): (r: seq<Json>)
    ensures |r| == |items| && forall i :: 0 <= i < |items| ==> r[i] == Canon(items[i])
    decreases items, 0
  {
    if items == [] then [] else [Canon(items[0])] + CanonItems(items[1..])
  }

  function CanonFields(fields: seq<Entry<Json>>): (r: seq<Entry<Json>>)
    ensures |r| == |fields|
    ensures forall i :: 0 <= i < |fields| ==> r[i].key == fields[i].key && r[i].value == Canon(fields[i].value)
    decreases fields, 0
  {
    if fields == [] then []
    else [Entry(fields[0].key, Canon(fields[0].value))] + CanonFields(fields[1..])
  }

  /** Printing fields in the order they have; every value ends with what follows it. */
  function Print(v: Json): string
    decreases v, 1
  {
    match v
    case JNull => "null"
    case JBool(flag) => if flag then "true" else "false"
    case JNum(n) => n
    case JStr(s) => Quote(s)
    case JArr(items) => "[" + (if items == [] then "]" else Print(items[0]) + PrintMore(items[1..]))
    case JObj(fields) => "{" + (if fields == [] then "}" else PrintField(fields[0]) + PrintMoreFields(fields[1..]))
  }

  function PrintMore(items: seq<Json>): string
    decreases items, 0
  {
    if items == [] then "]" else "," + (Print(items[0]) + PrintMore(items[1..]))
  }

  function PrintField(f: Entry<Json>): string
    decreases f, 1
  {
    Quote(f.key) + (":" + Print(f.value))
  }

  function PrintMoreFields(fields: seq<Entry<Json>>): string
    decreases fields, 0
  {
    if fields == [] then "}" else "," + (PrintField(fields[0]) + PrintMoreFields(fields[1..]))
  }

  function PrintValues(fields: seq<Entry<Json>>): (r: seq<Entry<string>>)
    ensures |r| == |fields|
  {
    if fields == [] then [] else [Entry(fields[0].key, Print(fields[0].value))] + PrintValues(fields[1..])
  }

  lemma {:induction false} InsertCommutes(f: Entry<Json>, fields: seq<Entry<Json>>)
    ensures PrintValues(Insert(f, fields)) == Insert(Entry(f.key, Print(f.value)), PrintValues(fields))
  {
    var e := Entry(f.key, Print(f.value));
    if fields == [] {
      assert [f][1..] == [];
    } else if TextBefore(f.key, fields[0].key) {
      assert ([f] + fields)[1..] == fields;
    } else {
      InsertCommutes(f, fields[1..]);
      assert ([fields[0]] + Insert(f, fields[1..]))[1..] == Insert(f, fields[1..]);
      assert PrintValues(fields)[1..] == PrintValues(fields[1..]);
    }
  }

  lemma {:induction false} SortCommutes(fields: seq<Entry<Json>>)
    ensures PrintValues(Sort(fields)) == Sort(PrintValues(fields))
  {
    if fields != [] {
      SortCommutes(fields[1..]);
      InsertCommutes(fields[0], Sort(fields[1..]));
      assert PrintValues(fields)[1..] == PrintValues(fields[1..]);
    }
  }

  lemma JoinClosed(texts: seq<string>, close: string)
    requires texts != []
    ensures Join(texts) + close == texts[0] + if |texts| == 1 then close else "," + (Join(texts[1..]) + close)
  {
    if |texts| > 1 {
      var rest := Join(texts[1..]);
      Assoc(texts[0], ",", rest);
      Assoc(texts[0], "," + rest, close);
      Assoc(",", rest, close);
    }
  }

  lemma {:induction false} JoinedFields(fields: seq<Entry<Json>>)
    requires fields != []
    ensures Join(EntryTexts(PrintValues(fields))) + "}" == PrintField(fields[0]) + PrintMoreFields(fields[1..])
  {
    var texts := EntryTexts(PrintValues(fields));
    assert texts[0] == PrintField(fields[0]) && texts[1..] == EntryTexts(PrintValues(fields[1..])) by {
      assert PrintValues(fields)[1..] == PrintValues(fields[1..]);
    }
    JoinClosed(texts, "}");
    if |fields| > 1 {
      JoinedFields(fields[1..]);
    } else {
      assert fields[1..] == [];
    }
  }

  lemma {:induction false} JoinedItems(items: seq<Json>)
    requires items != []
    requires forall i :: 0 <= i < |items| ==> Stringify(items[i]) == Print(Canon(items[i]))
    ensures Join(StringifyItems(items)) + "]" == Print(CanonItems(items)[0]) + PrintMore(CanonItems(items)[1..])
  {
    var texts := StringifyItems(items);
    assert texts[1..] == StringifyItems(items[1..]);
    assert CanonItems(items)[1..] == CanonItems(items[1..]);
    JoinClosed(texts, "]");
    if |items| > 1 {
      JoinedItems(items[1..]);
    } else {
      assert items[1..] == [];
    }
  }

  lemma {:induction false} FieldValues(fields: seq<Entry<Json>>)
    requires forall i :: 0 <= i < |fields| ==> Stringify(fields[i].value) == Print(Canon(fields[i].value))
    ensures StringifyFields(fields) == PrintValues(CanonFields(fields))
  {
    if fields != [] {
      FieldValues(fields[1..]);
      assert CanonFields(fields)[1..] == CanonFields(fields[1..]);
    }
  }

  /** The canonical text is the plain print of the value with its fields sorted. */
  lemma {:induction false} StringifyPrintsCanon(v: Json)
    ensures Stringify(v) == Print(Canon(v))
  {
    match v
    case JArr(items) =>
      forall i | 0 <= i < |items|
        ensures Stringify(items[i]) == Print(Canon(items[i]))
      {
        StringifyPrintsCanon(items[i]);
      }
      if items != [] {
        JoinedItems(items);
        assert Stringify(v) == "[" + (Join(StringifyItems(items)) + "]");
      }
    case JObj(fields) =>
      forall i | 0 <= i < |fields|
        ensures Stringify(fields[i].value) == Print(Canon(fields[i].value))
      {
        StringifyPrintsCanon(fields[i].value);
      }
      FieldValues(fields);
      SortCommutes(CanonFields(fields));
      var sorted := Sort(CanonFields(fields));
      SortKeepsLength(CanonFields(fields));
      if fields != [] {
        JoinedFields(sorted);
        assert Stringify(v) == "{" + (Join(EntryTexts(PrintValues(sorted))) + "}");
      }
    case _ =>
  }

  // ---------------------------------------------------------------------------
  // Sorting
  // ---------------------------------------------------------------------------

  lemma {:induction false} InsertMembers<V>(e: Entry<V>, s: seq<Entry<V>>, x: Entry<V>)
    ensures x in Insert(e, s) <==> x == e || x in s
    ensures |Insert(e, s)| == |s| + 1
  {
    if s != [] && !TextBefore(e.key, s[0].key) {
      InsertMembers(e, s[1..], x);
      assert s == [s[0]] + s[1..];
    }
  }

  lemma {:induction false} SortKeepsLength<V>(s: seq<Entry<V>>)
    ensures |Sort(s)| == |s|
  {
    if s != [] {
      SortKeepsLength(s[1..]);
      InsertMembers(s[0], Sort(s[1..]), s[0]);
    }
  }

  lemma {:induction false} SortMembers<V>(s: seq<Entry<V>>, x: Entry<V>)
    ensures x in Sort(s) <==> x in s
  {
    if s != [] {
      SortMembers(s[1..], x);
      InsertMembers(s[0], Sort(s[1..]), x);
      assert s == [s[0]] + s[1..];
    }
  }

  /** Keys strictly increase. */
  predicate Sorted<V>(s: seq<Entry<V>>) {
    forall i, j :: 0 <= i < j < |s| ==> TextBefore(s[i].key, s[j].key)
  }

  lemma {:induction false} InsertSorted<V>(e: Entry<V>, s: seq<Entry<V>>)
    requires Sorted(s) && forall x :: x in s ==> x.key != e.key
    ensures Sorted(Insert(e, s))
  {
    if s != [] {
      TextBeforeTotal(e.key, s[0].key);
      if TextBefore(e.key, s[0].key) {
        var r := [e] + s;
        forall j | 0 < j < |r|
          ensures TextBefore(e.key, r[j].key)
        {
          if j > 1 {
            TextBeforeTransitive(e.key, s[0].key, s[j - 1].key);
          }
        }
      } else {
        assert s[0] in s;
        InsertSorted(e, s[1..]);
        var rest := Insert(e, s[1..]);
        forall j | 0 <= j < |rest|
          ensures TextBefore(s[0].key, rest[j].key)
        {
          InsertMembers(e, s[1..], rest[j]);
          if rest[j] != e {
            var k :| 0 <= k < |s[1..]| && s[1..][k] == rest[j];
          }
        }
      }
    }
  }

  lemma {:induction false} SortSorts<V>(s: seq<Entry<V>>)
    requires DistinctKeys(s)
    ensures Sorted(Sort(s))
  {
    if s != [] {
      SortSorts(s[1..]);
      forall x | x in Sort(s[1..])
        ensures x.key != s[0].key
      {
        SortMembers(s[1..], x);
        var k :| 0 <= k < |s[1..]| && s[1..][k] == x;
      }
      InsertSorted(s[0], Sort(s[1..]));
    }
  }

  lemma SortedHead<V>(s: seq<Entry<V>>, t: seq<Entry<V>>)
    requires Sorted(s) && Sorted(t) && s != [] && t != []
    requires s[0] in t && t[0] in s
    ensures s[0] == t[0]
  {
    var i :| 0 <= i < |t| && t[i] == s[0];
    var j :| 0 <= j < |s| && s[j] == t[0];
    TextBeforeTotal(s[0].key, t[0].key);
  }

  lemma HeadIsMember<V>(s: seq<Entry<V>>)
    ensures s != [] ==> s[0] in s
  {
  }

  /** Two sorted sequences with the same entries are the same sequence. */
  lemma {:induction false} SortedUnique<V>(s: seq<Entry<V>>, t: seq<Entry<V>>)
    requires Sorted(s) && Sorted(t)
    requires forall x :: x in s <==> x in t
    ensures s == t
  {
    HeadIsMember(s);
    HeadIsMember(t);
    if s != [] {
      SortedHead(s, t);
      forall x
        ensures x in s[1..] <==> x in t[1..]
      {
        TailMembers(s, x);
        TailMembers(t, x);
      }
      SortedUnique(s[1..], t[1..]);
      assert s == [s[0]] + s[1..] && t == [t[0]] + t[1..];
    }
  }

  lemma TailMembers<V>(s: seq<Entry<V>>, x: Entry<V>)
    requires Sorted(s) && s != []
    ensures x in s[1..] <==> x in s && x != s[0]
  {
    assert s == [s[0]] + s[1..];
    if x in s[1..] {
      var k :| 0 <= k < |s[1..]| && s[1..][k] == x;
      assert s[k + 1] == x;
      TextBeforeTotal(s[0].key, s[0].key);
    }
  }

  // ---------------------------------------------------------------------------
  // A print determines what was printed
  // ---------------------------------------------------------------------------

  /** What may follow a value: the end, a comma or a closing bracket. */
  predicate Delimited(s: string) {
    s == "" || s[0] == ',' || s[0] == ']' || s[0] == '}'
  }

  lemma Assoc(p: string, q: string, r: string)
    ensures (p + q) + r == p + (q + r)
  {
  }

  lemma DropSame(p: string, x: string, y: string)
    requires p + x == p + y
    ensures x == y
  {
    assert (p + x)[|p|..] == x && (p + y)[|p|..] == y;
  }

  /** Two texts that start alike, split off after their first part. */
  lemma SameHead(p: string, q: string, x: string, y: string)
    requires p + x == q + y && p != "" && q != ""
    ensures p[0] == q[0]
  {
    assert (p + x)[0] == p[0] && (q + y)[0] == q[0];
  }

  lemma NumeralHead(m: string, x: string)
    requires (forall c :: c in m ==> IsNumeralChar(c)) && Delimited(x)
    ensures m == "" <==> m + x == "" || !IsNumeralChar((m + x)[0])
  {
    if m == "" {
      assert m + x == x;
    } else {
      assert (m + x)[0] == m[0] && m[0] in m;
    }
  }

  lemma {:induction false} NumeralEnds(m: string, n: string, x: string, y: string)
    requires (forall c :: c in m ==> IsNumeralChar(c)) && (forall c :: c in n ==> IsNumeralChar(c))
    requires Delimited(x) && Delimited(y) && m + x == n + y
    ensures m == n && x == y
  {
    NumeralHead(m, x);
    NumeralHead(n, y);
    if m == "" {
      assert m + x == x && n + y == y;
    } else {
      SameHead(m, n, x, y);
      assert (m + x)[1..] == m[1..] + x && (n + y)[1..] == n[1..] + y;
      NumeralEnds(m[1..], n[1..], x, y);
      assert m == [m[0]] + m[1..] && n == [n[0]] + n[1..];
    }
  }

  /** The escapes form a prefix code, and none starts with a quote. */
  lemma EscapeChars(c: char, d: char, u: string, v: string)
    requires EscapeChar(c) + u == EscapeChar(d) + v
    ensures c == d && u == v
  {
    var e, f := EscapeChar(c), EscapeChar(d);
    assert (e + u)[0] == e[0] && (f + v)[0] == f[0];
    if |e| > 1 && |f| > 1 {
      assert (e + u)[1] == e[1] && (f + v)[1] == f[1];
      if |e| > 2 && |f| > 2 {
        assert (e + u)[4] == e[4] && (f + v)[4] == f[4];
        assert (e + u)[5] == e[5] && (f + v)[5] == f[5];
        HexDigits(c as int / 16, d as int / 16);
        HexDigits(c as int % 16, d as int % 16);
      }
    }
    assert c == d;
    DropSame(e, u, v);
  }

  lemma HexDigits(a: int, b: int)
    requires 0 <= a < 16 && 0 <= b < 16 && HEX[a] == HEX[b]
    ensures a == b
  {
  }

  /** An escaped text and its closing quote, split after the first character. */
  lemma QuotedStep(s: string, x: string)
    ensures var rest := Escape(s) + ("\"" + x);
            && rest != "" && (rest[0] == '"' <==> s == "")
            && (s == "" ==> rest == "\"" + x)
            && (s != "" ==> rest == EscapeChar(s[0]) + (Escape(s[1..]) + ("\"" + x)))
  {
    if s != "" {
      Assoc(EscapeChar(s[0]), Escape(s[1..]), "\"" + x);
      assert EscapeChar(s[0])[0] != '"';
    }
  }

  lemma {:induction false} QuotedEnds(s: string, t: string, x: string, y: string)
    requires Escape(s) + ("\"" + x) == Escape(t) + ("\"" + y)
    ensures s == t && x == y
  {
    QuotedStep(s, x);
    QuotedStep(t, y);
    if s == "" {
      DropSame("\"", x, y);
    } else {
      EscapeChars(s[0], t[0], Escape(s[1..]) + ("\"" + x), Escape(t[1..]) + ("\"" + y));
      QuotedEnds(s[1..], t[1..], x, y);
      assert s == [s[0]] + s[1..] && t == [t[0]] + t[1..];
    }
  }

  lemma QuoteSplit(s: string, x: string)
    ensures Quote(s) + x == "\"" + (Escape(s) + ("\"" + x))
  {
    Assoc("\"" + Escape(s), "\"", x);
    Assoc("\"", Escape(s), "\"" + x);
  }

  lemma QuoteEnds(s: string, t: string, x: string, y: string)
    requires Quote(s) + x == Quote(t) + y
    ensures s == t && x == y
  {
    QuoteSplit(s, x);
    QuoteSplit(t, y);
    DropSame("\"", Escape(s) + ("\"" + x), Escape(t) + ("\"" + y));
    QuotedEnds(s, t, x, y);
  }

  /** The first character tells the kind of value. */
  function Kind(v: Json): int {
    match v
    case JNull => 0
    case JBool(flag) => if flag then 1 else 2
    case JNum(_) => 3
    case JStr(_) => 4
    case JArr(_) => 5
    case JObj(_) => 6
  }

  lemma PrintStart(v: Json)
    requires WellFormed(v)
    ensures var s := Print(v);
            s != "" && match Kind(v)
                       case 0 => s[0] == 'n'
                       case 1 => s[0] == 't'
                       case 2 => s[0] == 'f'
                       case 3 => '0' <= s[0] <= '9' || s[0] == '-'
                       case 4 => s[0] == '"'
                       case 5 => s[0] == '['
                       case _ => s[0] == '{'
  {
  }

  lemma SameKind(a: Json, b: Json, x: string, y: string)
    requires WellFormed(a) && WellFormed(b) && Print(a) + x == Print(b) + y
    ensures Kind(a) == Kind(b)
  {
    PrintStart(a);
    PrintStart(b);
    SameHead(Print(a), Print(b), x, y);
  }

  /** What follows the opening bracket of an array, or the first field of an object. */
  function AfterOpen(items: seq<Json>, x: string): string {
    if items == [] then "]" + x else Print(items[0]) + (PrintMore(items[1..]) + x)
  }

  function AfterOpenFields(fields: seq<Entry<Json>>, x: string): string {
    if fields == [] then "}" + x else PrintField(fields[0]) + (PrintMoreFields(fields[1..]) + x)
  }

  lemma SplitArr(items: seq<Json>, x: string)
    ensures Print(JArr(items)) + x == "[" + AfterOpen(items, x)
  {
    if items != [] {
      Assoc("[", Print(items[0]) + PrintMore(items[1..]), x);
      Assoc(Print(items[0]), PrintMore(items[1..]), x);
    }
  }

  lemma SplitObj(fields: seq<Entry<Json>>, x: string)
    ensures Print(JObj(fields)) + x == "{" + AfterOpenFields(fields, x)
  {
    if fields != [] {
      Assoc("{", PrintField(fields[0]) + PrintMoreFields(fields[1..]), x);
      Assoc(PrintField(fields[0]), PrintMoreFields(fields[1..]), x);
    }
  }

  lemma SplitMore(items: seq<Json>, x: string)
    ensures PrintMore(items) + x == if items == [] then "]" + x else "," + AfterOpen(items, x)
  {
    if items != [] {
      Assoc(",", Print(items[0]) + PrintMore(items[1..]), x);
      Assoc(Print(items[0]), PrintMore(items[1..]), x);
    }
  }

  lemma SplitMoreFields(fields: seq<Entry<Json>>, x: string)
    ensures PrintMoreFields(fields) + x == if fields == [] then "}" + x else "," + AfterOpenFields(fields, x)
  {
    if fields != [] {
      Assoc(",", PrintField(fields[0]) + PrintMoreFields(fields[1..]), x);
      Assoc(PrintField(fields[0]), PrintMoreFields(fields[1..]), x);
    }
  }

  predicate AllWellFormed(items: seq<Json>) {
    forall i :: 0 <= i < |items| ==> WellFormed(items[i])
  }

  predicate FieldsWellFormed(fields: seq<Entry<Json>>) {
    forall i :: 0 <= i < |fields| ==> WellFormed(fields[i].value)
  }

  /** Equal prints, even with more text after them, come from equal values. */
  lemma {:induction false} PrintDetermines(a: Json, b: Json, x: string, y: string)
    requires WellFormed(a) && WellFormed(b) && Delimited(x) && Delimited(y)
    requires Print(a) + x == Print(b) + y
    ensures a == b && x == y
    decreases a, 1
  {
    SameKind(a, b, x, y);
    match a
    case JNum(n) => NumeralEnds(n, b.numeral, x, y);
    case JStr(s) => QuoteEnds(s, b.text, x, y);
    case JArr(items) =>
      SplitArr(items, x);
      SplitArr(b.items, y);
      DropSame("[", AfterOpen(items, x), AfterOpen(b.items, y));
      ItemsDetermine(items, b.items, x, y);
    case JObj(fields) =>
      SplitObj(fields, x);
      SplitObj(b.fields, y);
      DropSame("{", AfterOpenFields(fields, x), AfterOpenFields(b.fields, y));
      FieldsDetermine(fields, b.fields, x, y);
    case _ => DropSame(Print(a), x, y);
  }

  lemma AfterOpenStart(items: seq<Json>, x: string)
    requires AllWellFormed(items)
    ensures AfterOpen(items, x) != "" && (AfterOpen(items, x)[0] == ']' <==> items == [])
  {
    if items != [] {
      PrintStart(items[0]);
    }
  }

  lemma {:induction false} ItemsDetermine(a: seq<Json>, b: seq<Json>, x: string, y: string)
    requires AllWellFormed(a) && AllWellFormed(b) && Delimited(x) && Delimited(y)
    requires AfterOpen(a, x) == AfterOpen(b, y)
    ensures a == b && x == y
    decreases a, 2
  {
    AfterOpenStart(a, x);
    AfterOpenStart(b, y);
    if a == [] {
      DropSame("]", x, y);
    } else {
      var restA, restB := PrintMore(a[1..]) + x, PrintMore(b[1..]) + y;
      SplitMore(a[1..], x);
      SplitMore(b[1..], y);
      assert Delimited(restA) && Delimited(restB);
      PrintDetermines(a[0], b[0], restA, restB);
      MoreDetermines(a[1..], b[1..], x, y);
      assert a == [a[0]] + a[1..] && b == [b[0]] + b[1..];
    }
  }

  lemma {:induction false} MoreDetermines(a: seq<Json>, b: seq<Json>, x: string, y: string)
    requires AllWellFormed(a) && AllWellFormed(b) && Delimited(x) && Delimited(y)
    requires PrintMore(a) + x == PrintMore(b) + y
    ensures a == b && x == y
    decreases a, 3
  {
    SplitMore(a, x);
    SplitMore(b, y);
    if a == [] {
      SameHead("]", if b == [] then "]" else ",", x, if b == [] then y else AfterOpen(b, y));
      DropSame("]", x, y);
    } else {
      SameHead(",", if b == [] then "]" else ",", AfterOpen(a, x), if b == [] then y else AfterOpen(b, y));
      DropSame(",", AfterOpen(a, x), AfterOpen(b, y));
      ItemsDetermine(a, b, x, y);
    }
  }

  lemma {:induction false} FieldDetermines(a: Entry<Json>, b: Entry<Json>, x: string, y: string)
    requires WellFormed(a.value) && WellFormed(b.value) && Delimited(x) && Delimited(y)
    requires PrintField(a) + x == PrintField(b) + y
    ensures a == b && x == y
    decreases a, 2
  {
    var restA, restB := Print(a.value) + x, Print(b.value) + y;
    Assoc(Quote(a.key), ":" + Print(a.value), x);
    Assoc(Quote(b.key), ":" + Print(b.value), y);
    Assoc(":", Print(a.value), x);
    Assoc(":", Print(b.value), y);
    QuoteEnds(a.key, b.key, ":" + restA, ":" + restB);
    DropSame(":", restA, restB);
    PrintDetermines(a.value, b.value, x, y);
  }

  lemma AfterOpenFieldsStart(fields: seq<Entry<Json>>, x: string)
    ensures AfterOpenFields(fields, x) != "" && (AfterOpenFields(fields, x)[0] == '}' <==> fields == [])
  {
    if fields != [] {
      assert Quote(fields[0].key)[0] == '"';
      assert PrintField(fields[0])[0] == '"';
    }
  }

  lemma {:induction false} FieldsDetermine(a: seq<Entry<Json>>, b: seq<Entry<Json>>, x: string, y: string)
    requires FieldsWellFormed(a) && FieldsWellFormed(b) && Delimited(x) && Delimited(y)
    requires AfterOpenFields(a, x) == AfterOpenFields(b, y)
    ensures a == b && x == y
    decreases a, 3
  {
    AfterOpenFieldsStart(a, x);
    AfterOpenFieldsStart(b, y);
    if a == [] {
      DropSame("}", x, y);
    } else {
      var restA, restB := PrintMoreFields(a[1..]) + x, PrintMoreFields(b[1..]) + y;
      SplitMoreFields(a[1..], x);
      SplitMoreFields(b[1..], y);
      assert Delimited(restA) && Delimited(restB);
      FieldDetermines(a[0], b[0], restA, restB);
      MoreFieldsDetermine(a[1..], b[1..], x, y);
      assert a == [a[0]] + a[1..] && b == [b[0]] + b[1..];
    }
  }

  lemma {:induction false} MoreFieldsDetermine(a: seq<Entry<Json>>, b: seq<Entry<Json>>, x: string, y: string)
    requires FieldsWellFormed(a) && FieldsWellFormed(b) && Delimited(x) && Delimited(y)
    requires PrintMoreFields(a) + x == PrintMoreFields(b) + y
    ensures a == b && x == y
    decreases a, 4
  {
    SplitMoreFields(a, x);
    SplitMoreFields(b, y);
    if a == [] {
      SameHead("}", if b == [] then "}" else ",", x, if b == [] then y else AfterOpenFields(b, y));
      DropSame("}", x, y);
    } else {
      SameHead(",", if b == [] then "}" else ",", AfterOpenFields(a, x), if b == [] then y else AfterOpenFields(b, y));
      DropSame(",", AfterOpenFields(a, x), AfterOpenFields(b, y));
      FieldsDetermine(a, b, x, y);
    }
  }

  // ---------------------------------------------------------------------------
  // Canonical texts agree exactly on equivalent values
  // ---------------------------------------------------------------------------

  lemma {:induction false} CanonWellFormed(v: Json)
    requires WellFormed(v)
    ensures WellFormed(Canon(v))
  {
    match v
    case JArr(items) =>
      forall i | 0 <= i < |items|
        ensures WellFormed(Canon(items[i]))
      {
        CanonWellFormed(items[i]);
      }
    case JObj(fields) =>
      var sorted := Sort(CanonFields(fields));
      forall i | 0 <= i < |fields|
        ensures WellFormed(Canon(fields[i].value))
      {
        CanonWellFormed(fields[i].value);
      }
      SortSorts(CanonFields(fields));
      forall k | 0 <= k < |sorted|
        ensures WellFormed(sorted[k].value)
      {
        SortMembers(CanonFields(fields), sorted[k]);
        assert sorted[k] in CanonFields(fields);
      }
      SortedDistinct(sorted);
    case _ =>
  }

  lemma SortedDistinct<V>(s: seq<Entry<V>>)
    requires Sorted(s)
    ensures DistinctKeys(s)
  {
    forall i, j | 0 <= i < j < |s|
      ensures s[i].key != s[j].key
    {
      TextBeforeTotal(s[i].key, s[i].key);
    }
  }

  /** Sorting forgets the order and nothing else. */
  lemma SortsAgree<V>(s: seq<Entry<V>>, t: seq<Entry<V>>)
    requires DistinctKeys(s) && DistinctKeys(t)
    ensures Sort(s) == Sort(t) <==> forall x :: x in s <==> x in t
  {
    forall x
      ensures (x in Sort(s) <==> x in s) && (x in Sort(t) <==> x in t)
    {
      SortMembers(s, x);
      SortMembers(t, x);
    }
    if forall x :: x in s <==> x in t {
      SortSorts(s);
      SortSorts(t);
      SortedUnique(Sort(s), Sort(t));
    }
  }

  lemma {:induction false} FieldOfIs<V>(s: seq<Entry<V>>, key: string, v: V)
    requires DistinctKeys(s)
    ensures FieldOf(s, key) == Some(v) <==> Entry(key, v) in s
  {
    if s != [] {
      FieldOfIs(s[1..], key, v);
      assert s == [s[0]] + s[1..];
    }
  }

  /** Objects with distinct keys hold the same entries exactly when every look-up agrees. */
  lemma SameEntriesIff<V>(s: seq<Entry<V>>, t: seq<Entry<V>>)
    requires DistinctKeys(s) && DistinctKeys(t)
    ensures (forall x :: x in s <==> x in t) <==>
            && (forall i :: 0 <= i < |s| ==> FieldOf(t, s[i].key) == Some(s[i].value))
            && (forall j :: 0 <= j < |t| ==> FieldOf(s, t[j].key).Some?)
  {
    if forall x :: x in s <==> x in t {
      forall i | 0 <= i < |s|
        ensures FieldOf(t, s[i].key) == Some(s[i].value)
      {
        assert s[i] in s;
        FieldOfIs(t, s[i].key, s[i].value);
      }
      forall j | 0 <= j < |t|
        ensures FieldOf(s, t[j].key).Some?
      {
        assert t[j] in t;
        FieldOfIs(s, t[j].key, t[j].value);
      }
    } else if (forall i :: 0 <= i < |s| ==> FieldOf(t, s[i].key) == Some(s[i].value))
              && (forall j :: 0 <= j < |t| ==> FieldOf(s, t[j].key).Some?) {
      forall x
        ensures x in s <==> x in t
      {
        LookupsGiveEntries(s, t, x);
      }
    }
  }

  lemma LookupsGiveEntries<V>(s: seq<Entry<V>>, t: seq<Entry<V>>, x: Entry<V>)
    requires DistinctKeys(s) && DistinctKeys(t)
    requires forall i :: 0 <= i < |s| ==> FieldOf(t, s[i].key) == Some(s[i].value)
    requires forall j :: 0 <= j < |t| ==> FieldOf(s, t[j].key).Some?
    ensures x in s <==> x in t
  {
    FieldOfIs(t, x.key, x.value);
    if x in s {
      var i :| 0 <= i < |s| && s[i] == x;
      assert FieldOf(t, s[i].key) == Some(s[i].value);
    }
    if x in t {
      var j :| 0 <= j < |t| && t[j] == x;
      assert FieldOf(s, t[j].key).Some?;
      var v := FieldOf(s, x.key).value;
      FieldOfIs(s, x.key, v);
      var i :| 0 <= i < |s| && s[i] == Entry(x.key, v);
      assert FieldOf(t, s[i].key) == Some(s[i].value);
    }
  }

  lemma {:induction false} FieldOfCanon(fields: seq<Entry<Json>>, key: string)
    ensures FieldOf(CanonFields(fields), key) ==
            match FieldOf(fields, key) case None => None case Some(v) => Some(Canon(v))
    ensures FieldOf(fields, key).Some? ==> exists j :: 0 <= j < |fields| && fields[j].value == FieldOf(fields, key).value
  {
    if fields != [] {
      FieldOfCanon(fields[1..], key);
      assert CanonFields(fields)[1..] == CanonFields(fields[1..]);
      if fields[0].key != key && FieldOf(fields, key).Some? {
        var j :| 0 <= j < |fields[1..]| && fields[1..][j].value == FieldOf(fields, key).value;
        assert fields[j + 1].value == FieldOf(fields, key).value;
      }
    }
  }

  /** Values have the same sorted form exactly when they are equal up to key order. */
  lemma {:induction false} CanonIffEquivalent(a: Json, b: Json)
    requires WellFormed(a) && WellFormed(b)
    ensures Canon(a) == Canon(b) <==> Equivalent(a, b)
    decreases a, 1
  {
    if a.JArr? && b.JArr? {
      CanonIffItems(a.items, b.items);
    } else if a.JObj? && b.JObj? {
      CanonIffFields(a.fields, b.fields);
    }
  }

  lemma {:induction false} CanonIffItems(a: seq<Json>, b: seq<Json>)
    requires AllWellFormed(a) && AllWellFormed(b)
    ensures CanonItems(a) == CanonItems(b) <==>
            |a| == |b| && forall i :: 0 <= i < |a| ==> Equivalent(a[i], b[i])
    decreases a, 0
  {
    forall i | 0 <= i < |a| && i < |b|
      ensures Canon(a[i]) == Canon(b[i]) <==> Equivalent(a[i], b[i])
    {
      CanonIffEquivalent(a[i], b[i]);
    }
    if |a| == |b| {
      assert CanonItems(a) == CanonItems(b) <==> forall i :: 0 <= i < |a| ==> CanonItems(a)[i] == CanonItems(b)[i];
    }
  }

  lemma {:induction false} CanonIffFields(a: seq<Entry<Json>>, b: seq<Entry<Json>>)
    requires FieldsWellFormed(a) && FieldsWellFormed(b) && DistinctKeys(a) && DistinctKeys(b)
    ensures Sort(CanonFields(a)) == Sort(CanonFields(b)) <==>
            && (forall i :: 0 <= i < |a| ==>
                  var g := FieldOf(b, a[i].key);
                  g.Some? && Equivalent(a[i].value, g.value))
            && (forall j :: 0 <= j < |b| ==> FieldOf(a, b[j].key).Some?)
    decreases a, 0
  {
    var ca, cb := CanonFields(a), CanonFields(b);
    SortsAgree(ca, cb);
    SameEntriesIff(ca, cb);
    forall i | 0 <= i < |a|
      ensures FieldOf(cb, ca[i].key) == Some(ca[i].value) <==>
              (FieldOf(b, a[i].key).Some? && Equivalent(a[i].value, FieldOf(b, a[i].key).value))
    {
      FieldOfCanon(b, a[i].key);
      if FieldOf(b, a[i].key).Some? {
        CanonIffEquivalent(a[i].value, FieldOf(b, a[i].key).value);
      }
    }
    forall j | 0 <= j < |b|
      ensures FieldOf(ca, cb[j].key).Some? <==> FieldOf(a, b[j].key).Some?
    {
      FieldOfCanon(a, b[j].key);
    }
  }

  /** Two JSON values have the same canonical text exactly when they are equal up to key order. */
  lemma StringifyIffEquivalent(a: Json, b: Json)
    requires WellFormed(a) && WellFormed(b)
    ensures Stringify(a) == Stringify(b) <==> Equivalent(a, b)
  {
    StringifyPrintsCanon(a);
    StringifyPrintsCanon(b);
    CanonIffEquivalent(a, b);
    CanonWellFormed(a);
    CanonWellFormed(b);
    if Print(Canon(a)) == Print(Canon(b)) {
      PrintDetermines(Canon(a), Canon(b), "", "");
    }
  }

  // ---------------------------------------------------------------------------
  // Request keys
  // ---------------------------------------------------------------------------

  /** Absent arguments are None, as undefined is in the source. */
  datatype Request = Request(entityType: string, entityId: string, metricKey: string, args: Option<Json>)

  function ArgsOf(r: Request): Json {
    match r.args
    case None => JNull
    case Some(v) => v
  }

  function RequestKey(r: Request): string {
    r.entityType + (":" + (r.entityId + (":" + (r.metricKey + (":" + Stringify(ArgsOf(r)))))))
  }

  predicate ColonFree(s: string) {
    forall c :: c in s ==> c != ':'
  }

  predicate KeyParts(r: Request) {
    ColonFree(r.entityType) && ColonFree(r.entityId) && ColonFree(r.metricKey) && WellFormed(ArgsOf(r))
  }

  lemma {:induction false} SplitAtColon(a: string, b: string, x: string, y: string)
    requires ColonFree(a) && ColonFree(b) && a + (":" + x) == b + (":" + y)
    ensures a == b && x == y
  {
    if a != "" && b != "" {
      SameHead(a, b, ":" + x, ":" + y);
      assert (a + (":" + x))[1..] == a[1..] + (":" + x) && (b + (":" + y))[1..] == b[1..] + (":" + y);
      TailColonFree(a);
      TailColonFree(b);
      SplitAtColon(a[1..], b[1..], x, y);
      assert a == [a[0]] + a[1..] && b == [b[0]] + b[1..];
    } else {
      ColonHead(a, x);
      ColonHead(b, y);
      DropSame(":", x, y);
    }
  }

  lemma TailColonFree(a: string)
    requires ColonFree(a) && a != ""
    ensures ColonFree(a[1..])
  {
    assert forall c :: c in a[1..] ==> c in a;
  }

  lemma ColonHead(a: string, x: string)
    requires ColonFree(a)
    ensures a == "" <==> (a + (":" + x))[0] == ':'
    ensures a == "" ==> a + (":" + x) == ":" + x
  {
    if a != "" {
      assert (a + (":" + x))[0] == a[0] && a[0] in a;
    }
  }

  /** Parts without a colon: keys agree exactly when all four parts of the requests do. */
  lemma RequestKeyIff(r: Request, q: Request)
    requires KeyParts(r) && KeyParts(q)
    ensures RequestKey(r) == RequestKey(q) <==>
            && r.entityType == q.entityType && r.entityId == q.entityId && r.metricKey == q.metricKey
            && Equivalent(ArgsOf(r), ArgsOf(q))
  {
    StringifyIffEquivalent(ArgsOf(r), ArgsOf(q));
    if RequestKey(r) == RequestKey(q) {
      var r1, q1 := r.metricKey + (":" + Stringify(ArgsOf(r))), q.metricKey + (":" + Stringify(ArgsOf(q)));
      var r2, q2 := r.entityId + (":" + r1), q.entityId + (":" + q1);
      SplitAtColon(r.entityType, q.entityType, r2, q2);
      SplitAtColon(r.entityId, q.entityId, r1, q1);
      SplitAtColon(r.metricKey, q.metricKey, Stringify(ArgsOf(r)), Stringify(ArgsOf(q)));
    }
  }

  /** What the catalog says about a metric key. */
  datatype Definition = Definition(entityTypes: set<string>, granularities: set<string>)

  datatype SourceType = Bucket | Live

  datatype Normalized = Normalized(request: Request, sourceType: SourceType)

  datatype BadRequest = UnknownKey | UnsupportedEntity | ArgsNotAccepted | GranularityRequired | UnsupportedGranularity

  function Normalize(catalog: map<string, Definition>, r: Request): Result<Normalized, BadRequest> {
    if r.metricKey !in catalog then Err(UnknownKey)
    else
      var d := catalog[r.metricKey];
      if r.entityType !in d.entityTypes then Err(UnsupportedEntity)
      else if "LIVE" in d.granularities then
        if r.args.Some? then Err(ArgsNotAccepted) else Ok(Normalized(r, Live))
      else if r.args.None? || !r.args.value.JObj? then Err(GranularityRequired)
      else
        var g := FieldOf(r.args.value.fields, "granularity");
        if g.Some? && g.value.JStr? && g.value.text in d.granularities
        then Ok(Normalized(r.(args := Some(JObj([Entry("granularity", JStr(g.value.text))]))), Bucket))
        else Err(UnsupportedGranularity)
  }

  predicate ColonFreeCatalog(catalog: map<string, Definition>) {
    forall k :: k in catalog ==> ColonFree(k) && forall e :: e in catalog[k].entityTypes ==> ColonFree(e)
  }

  function GranularityArgs(g: string): Json {
    JObj([Entry("granularity", JStr(g))])
  }

  lemma SingleField(key: string, u: Json, v: Json)
    ensures Equivalent(JObj([Entry(key, u)]), JObj([Entry(key, v)])) <==> Equivalent(u, v)
  {
    assert FieldOf([Entry(key, u)], key) == Some(u) && FieldOf([Entry(key, v)], key) == Some(v);
  }

  lemma GranularityArgsDiffer(g: string, h: string)
    ensures WellFormed(GranularityArgs(g))
    ensures Equivalent(GranularityArgs(g), GranularityArgs(h)) <==> g == h
    ensures !Equivalent(GranularityArgs(g), JNull) && !Equivalent(JNull, GranularityArgs(g))
  {
    SingleField("granularity", JStr(g), JStr(h));
  }

  /** The request's own arguments name this granularity. */
  predicate Names(r: Request, g: string) {
    r.args.Some? && r.args.value.JObj? && Entry("granularity", JStr(g)) in r.args.value.fields
  }

  /** Some listed granularity is the one the arguments name. */
  ghost predicate NamesListed(r: Request, granularities: set<string>) {
    exists g :: g in granularities && Names(r, g)
  }

  lemma {:induction false} FieldIs<V>(fields: seq<Entry<V>>, key: string, v: V)
    requires DistinctKeys(fields)
    ensures FieldOf(fields, key) == Some(v) <==> Entry(key, v) in fields
  {
    if fields != [] {
      assert DistinctKeys(fields[1..]);
      FieldIs(fields[1..], key, v);
      assert fields == [fields[0]] + fields[1..];
      assert forall i :: 0 <= i < |fields| - 1 ==> fields[1..][i] == fields[i + 1];
    }
  }

  /**
   * A normalized request carries no arguments when live, and otherwise a granularity alone: the
   * one the request's own arguments name, which the catalog lists for its metric key.
   */
  lemma NormalizedForm(catalog: map<string, Definition>, r: Request) returns (g: string)
    requires ColonFreeCatalog(catalog) && ColonFree(r.entityId) && Normalize(catalog, r).Ok?
    ensures var n := Normalize(catalog, r).value;
            && KeyParts(n.request)
            && (n.sourceType == Live ==> n.request == r && ArgsOf(r) == JNull && r.args.None?)
            && (n.sourceType == Bucket ==>
                  && n.request == r.(args := Some(GranularityArgs(g)))
                  && g in catalog[r.metricKey].granularities
                  && (WellFormed(ArgsOf(r)) ==> Names(r, g)))
            && (n.sourceType == Live <==> "LIVE" in catalog[r.metricKey].granularities)
  {
    var n := Normalize(catalog, r).value;
    g := "";
    if n.sourceType == Bucket {
      g := FieldOf(r.args.value.fields, "granularity").value.text;
      GranularityArgsDiffer(g, g);
      if WellFormed(ArgsOf(r)) {
        FieldIs(r.args.value.fields, "granularity", JStr(g));
      }
    }
  }

  /**
   * A request is accepted exactly when its key is catalogued, its entity type is listed, and it
   * either asks for a live value without arguments or names a listed granularity; otherwise the
   * first of these that fails gives the error.
   */
  lemma AcceptedIff(catalog: map<string, Definition>, r: Request)
    requires WellFormed(ArgsOf(r))
    ensures var known := r.metricKey in catalog;
            var listed := known && r.entityType in catalog[r.metricKey].entityTypes;
            var live := listed && "LIVE" in catalog[r.metricKey].granularities;
            var named := listed && NamesListed(r, catalog[r.metricKey].granularities);
            && (Normalize(catalog, r).Ok? <==> listed && if live then r.args.None? else named)
            && (Normalize(catalog, r) == Err(UnknownKey) <==> !known)
            && (Normalize(catalog, r) == Err(UnsupportedEntity) <==> known && !listed)
            && (Normalize(catalog, r) == Err(ArgsNotAccepted) <==> live && r.args.Some?)
            && (Normalize(catalog, r) == Err(GranularityRequired) <==>
                listed && !live && (r.args.None? || !r.args.value.JObj?))
            && (Normalize(catalog, r) == Err(UnsupportedGranularity) <==>
                listed && !live && r.args.Some? && r.args.value.JObj? && !named)
  {
    if r.args.Some? && r.args.value.JObj? {
      forall g
        ensures FieldOf(r.args.value.fields, "granularity") == Some(JStr(g)) <==> Names(r, g)
      {
        FieldIs(r.args.value.fields, "granularity", JStr(g));
      }
    }
  }

  /** Two accepted requests for bucket values share a key exactly when they ask for the same value of the same entity. */
  lemma BucketKeysIff(catalog: map<string, Definition>, r: Request, q: Request, g: string, h: string)
    requires ColonFreeCatalog(catalog) && ColonFree(r.entityId) && ColonFree(q.entityId)
    requires Normalize(catalog, r).Ok? && Normalize(catalog, q).Ok?
    requires Normalize(catalog, r).value.sourceType == Normalize(catalog, q).value.sourceType == Bucket
    requires WellFormed(ArgsOf(r)) && WellFormed(ArgsOf(q)) && Names(r, g) && Names(q, h)
    ensures RequestKey(Normalize(catalog, r).value.request) == RequestKey(Normalize(catalog, q).value.request) <==>
            r.entityType == q.entityType && r.entityId == q.entityId && r.metricKey == q.metricKey && g == h
  {
    var g' := NormalizedForm(catalog, r);
    var h' := NormalizedForm(catalog, q);
    FieldIs(r.args.value.fields, "granularity", JStr(g));
    FieldIs(r.args.value.fields, "granularity", JStr(g'));
    FieldIs(q.args.value.fields, "granularity", JStr(h));
    FieldIs(q.args.value.fields, "granularity", JStr(h'));
    RequestKeyIff(Normalize(catalog, r).value.request, Normalize(catalog, q).value.request);
    GranularityArgsDiffer(g, h);
  }

  /**
   * The normalized requests of one subscription are told apart by their keys: two of them
   * share a key only when they are the same request.
   */
  lemma NormalizedKeysDistinct(catalog: map<string, Definition>, r: Request, q: Request)
    requires ColonFreeCatalog(catalog) && ColonFree(r.entityId) && ColonFree(q.entityId)
    requires Normalize(catalog, r).Ok? && Normalize(catalog, q).Ok?
    ensures var n := Normalize(catalog, r).value;
            var m := Normalize(catalog, q).value;
            RequestKey(n.request) == RequestKey(m.request) <==> n == m
  {
    var n, m := Normalize(catalog, r).value, Normalize(catalog, q).value;
    var g := NormalizedForm(catalog, r);
    var h := NormalizedForm(catalog, q);
    RequestKeyIff(n.request, m.request);
    GranularityArgsDiffer(g, h);
  }
}
