/**
  The validation cascade's bookkeeping: the keys under which a child
  document's errors are republished on the host (`name.attr` for a single
  embedding, `name[i].attr` for element `i` of a collection), and the
  sequences of host errors a cascade appends.
 */
module ErrorKeys {

  /** One error a child document reports: the attribute and the message. */
  datatype ChildError = ChildError(attribute: string, message: string)

  /** One entry of the host's error list: `errors.add(key, message)`. */
  datatype HostError = HostError(key: string, message: string)

  // ---------------------------------------------------------------------
  // Decimal formatting of an index (`"#{index}"`)
  // ---------------------------------------------------------------------

  predicate IsDigit(c: char) {
    '0' <= c <= '9'
  }

  predicate AllDigits(s: string) {
    forall i :: 0 <= i < |s| ==> IsDigit(s[i])
  }

  function DigitChar(d: nat): (c: char)
    requires d < 10
    ensures IsDigit(c)
  {
    (('0' as int) + d) as char
  }

  function DigitValue(c: char): (d: nat)
    requires IsDigit(c)
    ensures d < 10
  {
    (c as int) - ('0' as int)
  }

  /** The decimal digits of `n`, most significant first. */
  function Decimal(n: nat): (s: string)
    ensures |s| > 0 && AllDigits(s)
    decreases n
  {
    if n < 10 then [DigitChar(n)] else Decimal(n / 10) + [DigitChar(n % 10)]
  }

  /** Reads a string of decimal digits back as a number. */
  function ParseDecimal(s: string): nat
    requires AllDigits(s)
    decreases |s|
  {
    if s == [] then 0 else 10 * ParseDecimal(s[..|s| - 1]) + DigitValue(s[|s| - 1])
  }

  /** Formatting an index and reading it back gives the index. */
  lemma {:induction false} ParseDecimalRoundTrip(n: nat)
    ensures ParseDecimal(Decimal(n)) == n
    decreases n
  {
    var s := Decimal(n);
    if n < 10 {
      assert s[..|s| - 1] == [];
    } else {
      assert s[..|s| - 1] == Decimal(n / 10);
      ParseDecimalRoundTrip(n / 10);
    }
  }

  // ---------------------------------------------------------------------
  // Keys
  // ---------------------------------------------------------------------

  /** The key prefix for the errors of a single embedded document. */
  function OnePrefix(name: string): (r: string)
    ensures |r| == |name| + 1 && r[..|name|] == name && r[|name|] == '.'
  {
    name + "."
  }

  /** The key prefix for the errors of element `index` of a collection. */
  function ManyPrefix(name: string, index: nat): (r: string)
    ensures |r| == |name| + |Decimal(index)| + 3 && r[..|name|] == name && r[|name|] == '['
    ensures r[|name| + 1..|r| - 2] == Decimal(index) && r[|r| - 2..] == "]."
  {
    name + "[" + Decimal(index) + "]."
  }

  /** The length of the run of digits a string starts with. */
  function DigitRun(s: string): nat
    decreases |s|
  {
    if s == [] || !IsDigit(s[0]) then 0 else 1 + DigitRun(s[1..])
  }

  /** Digits followed by a non-digit: the run is exactly the digits. */
  lemma {:induction false} DigitRunOfDigits(x: string, rest: string)
    requires AllDigits(x)
    requires rest != [] && !IsDigit(rest[0])
    ensures DigitRun(x + rest) == |x|
    decreases |x|
  {
    if x != [] {
      assert (x + rest)[1..] == x[1..] + rest;
      DigitRunOfDigits(x[1..], rest);
    }
  }

  /** Different (index, attribute) pairs of one collection never share a key:
      the key `name[i].attr` determines both `i` and `attr`. */
  lemma ManyKeyInjective(name: string, i: nat, a: string, j: nat, b: string)
    requires ManyPrefix(name, i) + a == ManyPrefix(name, j) + b
    ensures i == j && a == b
  {
    var x, y := Decimal(i), Decimal(j);
    var u, v := AfterBracket(name, i, a), AfterBracket(name, j, b);
    DigitRunOfDigits(x, "]." + a);
    DigitRunOfDigits(y, "]." + b);
    assert |x| == |y|;
    assert x == u[..|x|] && y == v[..|y|];
    assert "]." + a == u[|x|..] && "]." + b == v[|y|..];
    assert a == ("]." + a)[2..] && b == ("]." + b)[2..];
    ParseDecimalRoundTrip(i);
    ParseDecimalRoundTrip(j);
  }

  /** What follows `name[` in a collection key: the index digits, then `].`
      and the attribute. */
  function AfterBracket(name: string, index: nat, a: string): (u: string)
    ensures u == Decimal(index) + ("]." + a)
  {
    var k := ManyPrefix(name, index) + a;
    assert k == name + "[" + (Decimal(index) + ("]." + a));
    k[|name| + 1..]
  }

  /** A single-embedding key `name.attr` is never a collection key
      `name[i].attr'` of the same name. */
  lemma OneAndManyKeysDiffer(name: string, a: string, i: nat, b: string)
    ensures OnePrefix(name) + a != ManyPrefix(name, i) + b
  {
    assert (OnePrefix(name) + a)[|name|] == '.';
    assert (ManyPrefix(name, i) + b)[|name|] == '[';
  }

  // ---------------------------------------------------------------------
  // What a cascade appends
  // ---------------------------------------------------------------------

  /** Each child error republished under `prefix + attribute`, with the same
      message, in the child's order. */
  function Republish(prefix: string, errs: seq<ChildError>): (r: seq<HostError>)
    ensures |r| == |errs|
    decreases |errs|
  {
    if errs == [] then []
    else [HostError(prefix + errs[0].attribute, errs[0].message)] + Republish(prefix, errs[1..])
  }

  /** The `k`th host error is the `k`th child error under `prefix + attribute`,
      with the same message. */
  lemma {:induction false} RepublishAt(prefix: string, errs: seq<ChildError>, k: nat)
    requires k < |errs|
    ensures Republish(prefix, errs)[k] == HostError(prefix + errs[k].attribute, errs[k].message)
    decreases |errs|
  {
    if k > 0 {
      RepublishAt(prefix, errs[1..], k - 1);
    }
  }

  /** Republishing two runs of child errors one after the other is
      republishing them together. */
  lemma {:induction false} RepublishAppend(prefix: string, a: seq<ChildError>, b: seq<ChildError>)
    ensures Republish(prefix, a + b) == Republish(prefix, a) + Republish(prefix, b)
    decreases |a|
  {
    if a != [] {
      assert (a + b)[1..] == a[1..] + b;
      RepublishAppend(prefix, a[1..], b);
    } else {
      assert a + b == b;
    }
  }

  /** A single cascade adds a host error exactly when the child reports an
      error on `attr` with that message, and its key is then `name.attr`. */
  lemma OneErrorsMembership(name: string, errs: seq<ChildError>, e: HostError)
    ensures e in Republish(OnePrefix(name), errs) <==>
      exists k :: 0 <= k < |errs| && e == HostError(OnePrefix(name) + errs[k].attribute, errs[k].message)
  {
    var r := Republish(OnePrefix(name), errs);
    if e in r {
      var k :| 0 <= k < |r| && r[k] == e;
      RepublishAt(OnePrefix(name), errs, k);
    }
    forall k | 0 <= k < |errs|
      ensures r[k] == HostError(OnePrefix(name) + errs[k].attribute, errs[k].message)
    {
      RepublishAt(OnePrefix(name), errs, k);
    }
  }

  /** The host errors for element `index` of a collection: nothing when the
      element is valid (`next if document.valid?`), its errors otherwise. */
  function ElementErrors(name: string, index: nat, errs: seq<ChildError>): (r: seq<HostError>)
    ensures |r| == |errs|
  {
    if errs == [] then [] else Republish(ManyPrefix(name, index), errs)
  }

  /** The number of child errors of the first `n` elements. */
  function ErrorCount(es: seq<seq<ChildError>>, n: nat): nat
    requires n <= |es|
    decreases n
  {
    if n == 0 then 0 else ErrorCount(es, n - 1) + |es[n - 1]|
  }

  /** The host errors of a collection cascade over its first `n` elements,
      given each element's errors, element by element in index order. */
  function ManyErrors(name: string, es: seq<seq<ChildError>>, n: nat): (r: seq<HostError>)
    requires n <= |es|
    ensures |r| == ErrorCount(es, n)
    decreases n
  {
    if n == 0 then [] else ManyErrors(name, es, n - 1) + ElementErrors(name, n - 1, es[n - 1])
  }

  /** A collection whose elements are all valid adds no host error. */
  lemma {:induction false} ValidElementsAddNothing(name: string, es: seq<seq<ChildError>>, n: nat)
    requires n <= |es|
    requires forall i :: 0 <= i < n ==> es[i] == []
    ensures ManyErrors(name, es, n) == []
    decreases n
  {
    if n > 0 {
      ValidElementsAddNothing(name, es, n - 1);
    }
  }

  /** The errors of the first `i` elements come first, in the same order,
      before any error of a later element. */
  lemma {:induction false} ManyErrorsPrefix(name: string, es: seq<seq<ChildError>>, i: nat, n: nat)
    requires i <= n <= |es|
    ensures ManyErrors(name, es, i) <= ManyErrors(name, es, n)
    decreases n
  {
    if i < n {
      ManyErrorsPrefix(name, es, i, n - 1);
      var before := ManyErrors(name, es, n - 1);
      assert ManyErrors(name, es, n) == before + ElementErrors(name, n - 1, es[n - 1]);
      assert before <= ManyErrors(name, es, n);
    }
  }

  /** A host error is added by a collection cascade exactly when some element
      `i` reports an error on `attr` with that message, and its key is then
      `name[i].attr`. */
  lemma {:induction false} ManyErrorsMembership(name: string, es: seq<seq<ChildError>>, n: nat, e: HostError)
    requires n <= |es|
    ensures e in ManyErrors(name, es, n) <==>
      exists i, k :: 0 <= i < n && 0 <= k < |es[i]| &&
        e == HostError(ManyPrefix(name, i) + es[i][k].attribute, es[i][k].message)
    decreases n
  {
    if n > 0 {
      var last := n - 1;
      ManyErrorsMembership(name, es, last, e);
      var tail := ElementErrors(name, last, es[last]);
      if e in ManyErrors(name, es, n) {
        if e in tail {
          var k :| 0 <= k < |tail| && tail[k] == e;
          RepublishAt(ManyPrefix(name, last), es[last], k);
          assert e == HostError(ManyPrefix(name, last) + es[last][k].attribute, es[last][k].message);
        }
      } else {
        forall i, k | 0 <= i < n && 0 <= k < |es[i]|
          ensures e != HostError(ManyPrefix(name, i) + es[i][k].attribute, es[i][k].message)
        {
          if i == last {
            RepublishAt(ManyPrefix(name, i), es[i], k);
            assert tail[k] == HostError(ManyPrefix(name, i) + es[i][k].attribute, es[i][k].message);
          }
        }
      }
    }
  }
}
