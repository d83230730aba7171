/**
 * The few Python text operations the views and forms rely on, written out
 * over `string` (a `seq<char>`).
 */
module PyText {
  import opened Outcomes

  /**
   * `s.rsplit('.', 1)`: when `s` holds a dot, the text before the last dot
   * and the text after it. Python returns the one-element list `[s]` when
   * there is no dot; that is `None` here, so indexing `[1]` has nothing to take.
   */
  function RSplitLastDot(s: string): (r: Option<(string, string)>)
    ensures r.None? <==> '.' !in s
    ensures r.Some? ==> s == r.value.0 + "." + r.value.1
    ensures r.Some? ==> '.' !in r.value.1
    decreases |s|
  {
    if |s| == 0 then None
    else
      var init, last := s[..|s| - 1], s[|s| - 1];
      assert s == init + [last];
      if last == '.' then Some((init, ""))
      else match RSplitLastDot(init)
        case None => None
        case Some((before, after)) =>
          assert s == before + "." + (after + [last]);
          Some((before, after + [last]))
  }

  /**
   * The last dot is the only dot with no dot after it, so any split of `s`
   * into `before + "." + after` with a dot-free `after` is the one
   * `RSplitLastDot` returns.
   */
  lemma {:induction false} LastDotSplitIsUnique(before: string, after: string)
    requires '.' !in after
    ensures RSplitLastDot(before + "." + after) == Some((before, after))
    decreases |after|
  {
    var s := before + "." + after;
    if |after| == 0 {
      assert s[..|s| - 1] == before;
    } else {
      var init := after[..|after| - 1];
      assert s[..|s| - 1] == before + "." + init;
      assert s[|s| - 1] == after[|after| - 1];
      LastDotSplitIsUnique(before, init);
      assert init + [after[|after| - 1]] == after;
    }
  }

  /**
   * The ASCII part of Python's `str.lower()` on one character: an ASCII
   * capital becomes its small letter, any other character is kept, and no
   * ASCII capital comes out.
   */
  function LowerChar(c: char): (d: char)
    ensures 'A' <= c <= 'Z' ==> d as int == c as int + 32
    ensures !('A' <= c <= 'Z') ==> d == c
    ensures !('A' <= d <= 'Z')
  {
    if 'A' <= c <= 'Z' then (c as int - 'A' as int + 'a' as int) as char else c
  }

  /** The ASCII part of Python's `str.lower()`, character by character, of the same length. */
  function Lower(s: string): (r: string)
    ensures |r| == |s|
    ensures forall i :: 0 <= i < |s| ==> r[i] == LowerChar(s[i])
  {
    seq(|s|, i requires 0 <= i < |s| => LowerChar(s[i]))
  }

  /** Lowering is idempotent, as Python's is. */
  lemma LowerIdempotent(s: string)
    ensures Lower(Lower(s)) == Lower(s)
  {
    forall i | 0 <= i < |s|
      ensures Lower(Lower(s))[i] == Lower(s)[i]
    {
    }
  }

  /**
   * Python's `str(n)` of a non-negative integer: its decimal digits, with
   * no leading zero.
   */
  function Decimal(n: nat): (r: string)
    ensures 1 <= |r|
    ensures forall i :: 0 <= i < |r| ==> '0' <= r[i] <= '9'
    ensures n < 10 <==> |r| == 1
    ensures |r| > 1 ==> r[0] != '0'
  {
    if n < 10 then [DigitChar(n)] else Decimal(n / 10) + [DigitChar(n % 10)]
  }

  function DigitChar(d: nat): (c: char)
    requires d < 10
    ensures '0' <= c <= '9'
  {
    ('0' as int + d) as char
  }

  /** The number a string of decimal digits denotes, as `int()` reads it. */
  function DigitsValue(s: string): nat
  {
    if |s| == 0 then 0
    else
      var d := s[|s| - 1] as int - '0' as int;
      DigitsValue(s[..|s| - 1]) * 10 + (if 0 <= d < 10 then d else 0)
  }

  /** `int(str(n)) == n`: the decimal text reads back as the number. */
  lemma {:induction false} DecimalRoundTrip(n: nat)
    ensures DigitsValue(Decimal(n)) == n
  {
    if 10 <= n {
      var d := Decimal(n);
      assert d[..|d| - 1] == Decimal(n / 10);
      DecimalRoundTrip(n / 10);
    }
  }

  /** Distinct numbers are written with distinct digit strings. */
  lemma DecimalInjective(a: nat, b: nat)
    requires Decimal(a) == Decimal(b)
    ensures a == b
  {
    DecimalRoundTrip(a);
    DecimalRoundTrip(b);
  }

  /** Python truthiness of an optional request value: present and not empty. */
  predicate Truthy(p: Option<string>)
  {
    p.Some? && p.value != ""
  }

  /** `dict.get(key)`: the value, or `None` when the key is absent. */
  function Get(d: map<string, string>, key: string): (r: Option<string>)
    ensures r.Some? <==> key in d
    ensures r.Some? ==> r.value == d[key]
  {
    if key in d then Some(d[key]) else None
  }

  /**
   * Python's `int()` applied to request text. Its grammar (signs, blanks,
   * underscores, non-ASCII digits) lives in the interpreter, so every caller
   * takes it as a parameter; `None` stands for the `ValueError` it raises.
   */
  type IntParser = string -> Option<int>
}
