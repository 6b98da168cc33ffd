/** Comparing texts character by character, as Lua's < and the default array sort do. */
module Text {

  /** a sorts before b: the first difference decides, and a proper prefix comes first. */
  predicate TextBefore(a: string, b: string) {
    if b == "" then false
    else if a == "" then true
    else if a[0] != b[0] then a[0] < b[0]
    else TextBefore(a[1..], b[1..])
  }

  lemma {:induction false} TextBeforeSame(p: string, a: string, b: string)
    ensures TextBefore(p + a, p + b) == TextBefore(a, b)
  {
    if p == "" {
      assert p + a == a && p + b == b;
    } else {
      assert (p + a)[1..] == p[1..] + a && (p + b)[1..] == p[1..] + b;
      TextBeforeSame(p[1..], a, b);
    }
  }

  lemma {:induction false} TextBeforeSplit(p: string, q: string, a: string, b: string)
    requires |p| == |q| && p != q
    ensures TextBefore(p + a, q + b) == TextBefore(p, q)
  {
    assert (p + a)[1..] == p[1..] + a && (q + b)[1..] == q[1..] + b;
    if p[0] == q[0] {
      assert p == [p[0]] + p[1..] && q == [q[0]] + q[1..];
      TextBeforeSplit(p[1..], q[1..], a, b);
    }
  }

  lemma TextBeforeLast(p: string, q: string, c: char, d: char)
    requires |p| == |q|
    ensures TextBefore(p + [c], q + [d]) == if p == q then c < d else TextBefore(p, q)
  {
    if p == q {
      TextBeforeSame(p, [c], [d]);
    } else {
      TextBeforeSplit(p, q, [c], [d]);
    }
  }

  lemma {:induction false} TextBeforeTotal(a: string, b: string)
    ensures a == b || TextBefore(a, b) || TextBefore(b, a)
    ensures !(TextBefore(a, b) && TextBefore(b, a)) && !TextBefore(a, a)
  {
    if a != "" && b != "" && a[0] == b[0] {
      TextBeforeTotal(a[1..], b[1..]);
      assert a == [a[0]] + a[1..] && b == [b[0]] + b[1..];
    }
    if a != "" {
      TextBeforeTotal(a[1..], a[1..]);
    }
  }

  lemma {:induction false} TextBeforeTransitive(a: string, b: string, c: string)
    requires TextBefore(a, b) && TextBefore(b, c)
    ensures TextBefore(a, c)
  {
    if a != "" && a[0] == b[0] == c[0] {
      TextBeforeTransitive(a[1..], b[1..], c[1..]);
    }
  }
}
