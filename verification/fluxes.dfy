/** The lookup-table builder of the compiled cosmic-ray fluxes: a mapping
    from particle type to a number becomes a nested `where(...)` expression
    for the numexpr evaluator. The expression is modelled twice, as the text
    the builder returns and as a syntax tree with numexpr's semantics, and
    the two are tied together. How keys and values print (Python's `str`)
    enters as a pair of parameters. */
module Fluxes {

  /** One `(particle type, value)` pair of the mapping. */
  datatype Entry = Entry(key: int, value: real)

  /** The expressions the builder produces: a `where(name==key, value,
      otherwise)` selection or the default constant. */
  datatype Expr =
    | Where(name: string, key: int, value: real, otherwise: Expr)
    | Const(value: real)

  /** Number of `where` selections in an expression. */
  function Size(e: Expr): nat {
    match e
    case Const(_) => 0
    case Where(_, _, _, rest) => 1 + Size(rest)
  }

  /** The syntax tree of the lookup expression for `mapping`. */
  function LookupExpr(mapping: seq<Entry>, name: string, default: real): (e: Expr)
    ensures Size(e) == |mapping|
  {
    if |mapping| > 0 then Where(name, mapping[0].key, mapping[0].value, LookupExpr(mapping[1..], name, default))
    else Const(default)
  }

  /** numexpr's reading of the expression with the variable set to `x`:
      `where(c, a, b)` is `a` where `c` holds and `b` elsewhere. */
  function Eval(e: Expr, x: int): real {
    match e
    case Const(v) => v
    case Where(_, k, v, rest) => if x == k then v else Eval(rest, x)
  }

  /** The lookup expression is the lookup table: a key missing from the
      mapping gives the default, and a present key gives the value of its
      first pair. */
  lemma {:induction false} LookupExprIsTable(mapping: seq<Entry>, name: string, default: real, x: int)
    ensures (forall i :: 0 <= i < |mapping| ==> mapping[i].key != x)
      ==> Eval(LookupExpr(mapping, name, default), x) == default
    ensures forall i :: 0 <= i < |mapping| && mapping[i].key == x && (forall j :: 0 <= j < i ==> mapping[j].key != x) ==>
      Eval(LookupExpr(mapping, name, default), x) == mapping[i].value
  {
    if |mapping| > 0 {
      var rest := mapping[1..];
      LookupExprIsTable(rest, name, default, x);
      forall i | 0 <= i < |mapping| && mapping[i].key == x && (forall j :: 0 <= j < i ==> mapping[j].key != x)
        ensures Eval(LookupExpr(mapping, name, default), x) == mapping[i].value
      {
        if i > 0 {
          assert rest[i - 1] == mapping[i];
          forall j | 0 <= j < i - 1 ensures rest[j].key != x {
            assert rest[j] == mapping[j + 1];
          }
        }
      }
      if forall i :: 0 <= i < |mapping| ==> mapping[i].key != x {
        assert mapping[0].key != x;
        forall i | 0 <= i < |rest| ensures rest[i].key != x {
          assert rest[i] == mapping[i + 1];
        }
      }
    }
  }

  /** With distinct keys the expression is the table of the mapping's
      pairs, whatever their order. */
  lemma DistinctKeysLookup(mapping: seq<Entry>, name: string, default: real, i: nat)
    requires forall a, b :: 0 <= a < b < |mapping| ==> mapping[a].key != mapping[b].key
    requires i < |mapping|
    ensures Eval(LookupExpr(mapping, name, default), mapping[i].key) == mapping[i].value
  {
    LookupExprIsTable(mapping, name, default, mapping[i].key);
  }

  /** The text of an expression, with the format `where(%s==%s, %s, %s)`. */
  function Render(e: Expr, showKey: int -> string, showValue: real -> string): string {
    match e
    case Const(v) => showValue(v)
    case Where(name, k, v, rest) =>
      "where(" + name + "==" + showKey(k) + ", " + showValue(v) + ", " + Render(rest, showKey, showValue) + ")"
  }

  /** `build_lookup`: the empty mapping gives the printed default; a
      non-empty one selects on its first pair and falls back to the lookup
      of the rest. The text is that of the lookup expression's tree. */
  function BuildLookup(mapping: seq<Entry>, name: string, default: real,
                       showKey: int -> string, showValue: real -> string): (s: string)
    ensures s == Render(LookupExpr(mapping, name, default), showKey, showValue)
  {
    if |mapping| > 0 then
      "where(" + name + "==" + showKey(mapping[0].key) + ", " + showValue(mapping[0].value) + ", "
        + BuildLookup(mapping[1..], name, default, showKey, showValue) + ")"
    else showValue(default)
  }

  /** Occurrences of the character `c`. */
  function Count(s: string, c: char): nat {
    if |s| == 0 then 0 else Count(s[..|s| - 1], c) + (if s[|s| - 1] == c then 1 else 0)
  }

  lemma {:induction false} CountAppend(a: string, b: string, c: char)
    ensures Count(a + b, c) == Count(a, c) + Count(b, c)
  {
    if |b| > 0 {
      CountAppend(a, b[..|b| - 1], c);
      assert (a + b)[..|a + b| - 1] == a + b[..|b| - 1];
    } else {
      assert a + b == a;
    }
  }

  /** Text without parentheses, as Python prints numbers and names. */
  predicate Plain(s: string) {
    forall i :: 0 <= i < |s| ==> s[i] != '(' && s[i] != ')'
  }

  lemma {:induction false} PlainCounts(s: string)
    requires Plain(s)
    ensures Count(s, '(') == 0 && Count(s, ')') == 0
  {
    if |s| > 0 {
      PlainCounts(s[..|s| - 1]);
    }
  }

  /** Every prefix closes no more parentheses than it opens, and the whole
      text closes all it opens. */
  predicate Balanced(s: string) {
    && (forall k :: 0 <= k <= |s| ==> Count(s[..k], ')') <= Count(s[..k], '('))
    && Count(s, ')') == Count(s, '(')
  }

  /** Every opening parenthesis ends a `where(`. */
  predicate OpensAreWheres(s: string) {
    forall p :: 0 <= p < |s| && s[p] == '(' ==> 5 <= p && s[p - 5..p + 1] == "where("
  }

  /** Occurrences of `where(`, counted by where each ends. */
  function WhereCount(s: string): nat {
    if |s| == 0 then 0
    else WhereCount(s[..|s| - 1]) + (if |s| >= 6 && s[|s| - 6..] == "where(" then 1 else 0)
  }

  /** When every opening parenthesis ends a `where(`, the `where(`s are
      exactly as many as the opening parentheses. */
  lemma {:induction false} WhereCountIsOpenCount(s: string)
    requires OpensAreWheres(s)
    ensures WhereCount(s) == Count(s, '(')
  {
    if |s| > 0 {
      var n := |s|;
      var prefix := s[..n - 1];
      forall p | 0 <= p < |prefix| && prefix[p] == '('
        ensures 5 <= p && prefix[p - 5..p + 1] == "where("
      {
        assert s[p] == '(';
        assert prefix[p - 5..p + 1] == s[p - 5..p + 1];
      }
      WhereCountIsOpenCount(prefix);
      if s[n - 1] == '(' {
        assert s[n - 6..] == s[n - 1 - 5..n - 1 + 1];
      }
      if n >= 6 && s[n - 6..] == "where(" {
        assert s[n - 1] == s[n - 6..][5];
      }
    }
  }

  lemma OpensAreWheresAppend(a: string, b: string)
    requires OpensAreWheres(a) && OpensAreWheres(b)
    ensures OpensAreWheres(a + b)
  {
    var s := a + b;
    forall p | 0 <= p < |s| && s[p] == '('
      ensures 5 <= p && s[p - 5..p + 1] == "where("
    {
      if p < |a| {
        assert a[p] == '(';
        assert s[p - 5..p + 1] == a[p - 5..p + 1];
      } else {
        var q := p - |a|;
        assert b[q] == '(';
        assert s[p - 5..p + 1] == b[q - 5..q + 1];
      }
    }
  }

  lemma PlainOpensAreWheres(s: string)
    requires Plain(s)
    ensures OpensAreWheres(s)
  {
  }

  /** Concatenation adds the parentheses counts of each prefix. */
  lemma PrefixCounts(a: string, b: string, k: nat, c: char)
    requires k <= |a + b|
    ensures k <= |a| ==> Count((a + b)[..k], c) == Count(a[..k], c)
    ensures k > |a| ==> Count((a + b)[..k], c) == Count(a, c) + Count(b[..k - |a|], c)
  {
    if k <= |a| {
      assert (a + b)[..k] == a[..k];
    } else {
      assert (a + b)[..k] == a + b[..k - |a|];
      CountAppend(a, b[..k - |a|], c);
    }
  }

  /** A text that opens one parenthesis, never closes it, and never drops
      below zero on the way. */
  predicate OpensOne(s: string) {
    && (forall k :: 0 <= k <= |s| ==> Count(s[..k], ')') <= Count(s[..k], '('))
    && Count(s, ')') == 0 && Count(s, '(') == 1
  }

  lemma {:induction false} CountAbsent(s: string, c: char)
    requires forall i :: 0 <= i < |s| ==> s[i] != c
    ensures Count(s, c) == 0
  {
    if |s| > 0 {
      CountAbsent(s[..|s| - 1], c);
    }
  }

  /** `where(name==key, value, ` opens exactly one parenthesis. */
  lemma HeadOpensOne(name: string, key: string, value: string)
    requires Plain(name) && Plain(key) && Plain(value)
    ensures OpensOne("where(" + name + "==" + key + ", " + value + ", ")
    ensures OpensAreWheres("where(" + name + "==" + key + ", " + value + ", ")
  {
    var tail := name + "==" + key + ", " + value + ", ";
    var head := "where(" + name + "==" + key + ", " + value + ", ";
    assert head == "where(" + tail;
    assert Plain(tail);
    PlainCounts(tail);
    PlainOpensAreWheres(tail);
    assert Count("where(", '(') == 1 by {
      assert "where("[..5] == "where";
      CountAbsent("where", '(');
    }
    CountAbsent("where(", ')');
    CountAppend("where(", tail, '(');
    CountAppend("where(", tail, ')');
    forall k | 0 <= k <= |head|
      ensures Count(head[..k], ')') <= Count(head[..k], '(')
    {
      PrefixCounts("where(", tail, k, ')');
      if k <= 6 {
        CountAbsent("where("[..k], ')');
      } else {
        assert Plain(tail[..k - 6]);
        PlainCounts(tail[..k - 6]);
      }
    }
    assert OpensAreWheres("where(") by {
      forall p | 0 <= p < 6 && "where("[p] == '('
        ensures 5 <= p && "where("[p - 5..p + 1] == "where("
      {
        assert p == 5;
      }
    }
    OpensAreWheresAppend("where(", tail);
  }

  /** Opening one parenthesis, a balanced text and a closing one make a
      balanced text. */
  lemma WrapBalanced(head: string, body: string)
    requires OpensOne(head) && Balanced(body)
    ensures Balanced(head + body + ")")
  {
    var s := head + body + ")";
    var hb := head + body;
    assert Count(")", ')') == 1 && Count(")", '(') == 0 by {
      assert ")"[..0] == "";
    }
    CountAppend(head, body, '(');
    CountAppend(head, body, ')');
    CountAppend(hb, ")", '(');
    CountAppend(hb, ")", ')');
    forall k | 0 <= k <= |s|
      ensures Count(s[..k], ')') <= Count(s[..k], '(')
    {
      PrefixCounts(hb, ")", k, ')');
      PrefixCounts(hb, ")", k, '(');
      if k <= |hb| {
        PrefixCounts(head, body, k, ')');
        PrefixCounts(head, body, k, '(');
        if k > |head| {
          assert Count(body[..k - |head|], ')') <= Count(body[..k - |head|], '(');
        }
      } else {
        assert s[..k] == s;
      }
    }
  }

  /** A text without parentheses is trivially balanced. */
  lemma PlainBalanced(s: string)
    requires Plain(s)
    ensures Balanced(s) && OpensAreWheres(s) && Count(s, '(') == 0
  {
    PlainCounts(s);
    forall k | 0 <= k <= |s|
      ensures Count(s[..k], ')') <= Count(s[..k], '(')
    {
      assert Plain(s[..k]);
      PlainCounts(s[..k]);
    }
  }

  /** With the variable name and the printed keys and values free of
      parentheses, the text `build_lookup` returns is balanced and holds
      one `where(` per pair of the mapping, and every opening parenthesis
      is that of a `where(`. */
  lemma {:induction false} BuildLookupShape(mapping: seq<Entry>, name: string, default: real,
                                            showKey: int -> string, showValue: real -> string)
    requires Plain(name)
    requires forall k :: Plain(showKey(k))
    requires forall v :: Plain(showValue(v))
    ensures var s := BuildLookup(mapping, name, default, showKey, showValue);
      && Balanced(s) && OpensAreWheres(s)
      && Count(s, '(') == |mapping| && WhereCount(s) == |mapping|
  {
    var s := BuildLookup(mapping, name, default, showKey, showValue);
    if |mapping| == 0 {
      PlainBalanced(s);
    } else {
      var rest := BuildLookup(mapping[1..], name, default, showKey, showValue);
      BuildLookupShape(mapping[1..], name, default, showKey, showValue);
      var head := "where(" + name + "==" + showKey(mapping[0].key) + ", " + showValue(mapping[0].value) + ", ";
      HeadOpensOne(name, showKey(mapping[0].key), showValue(mapping[0].value));
      assert s == head + rest + ")";
      WrapBalanced(head, rest);
      assert OpensAreWheres(")");
      OpensAreWheresAppend(head, rest);
      OpensAreWheresAppend(head + rest, ")");
      CountAppend(head, rest, '(');
      CountAppend(head + rest, ")", '(');
      assert Count(")", '(') == 0 by {
        assert ")"[..0] == "";
      }
    }
    WhereCountIsOpenCount(s);
  }
}
