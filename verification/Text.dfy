// Decimal numbers and the order of strings, as text.
module Text {
  // ---- Decimals --------------------------------------------------------------------------------------

  predicate IsDigit(c: char)
  {
    '0' <= c <= '9'
  }

  function Digit(d: nat): (c: char)
    requires d < 10
    ensures IsDigit(c) && DigitValue(c) == d
  {
    '0' + d as char
  }

  function DigitValue(c: char): nat
    requires IsDigit(c)
  {
    c as int - '0' as int
  }

  predicate AllDigits(text: string)
  {
    forall i | 0 <= i < |text| :: IsDigit(text[i])
  }

  // `n` in decimal, with no leading zero.
  function Decimal(n: nat): (text: string)
    ensures text != [] && AllDigits(text)
  {
    if n < 10 then [Digit(n)] else Decimal(n / 10) + [Digit(n % 10)]
  }

  function DecimalValue(text: string): nat
    requires AllDigits(text)
  {
    if text == [] then 0
    else DecimalValue(text[..|text| - 1]) * 10 + DigitValue(text[|text| - 1])
  }

  lemma {:induction false} DecimalReads(n: nat)
    ensures DecimalValue(Decimal(n)) == n
    ensures Decimal(n)[0] == '0' <==> n == 0
    ensures n == 0 ==> |Decimal(n)| == 1
  {
    if n >= 10 {
      DecimalReads(n / 10);
      assert Decimal(n)[..|Decimal(n)| - 1] == Decimal(n / 10);
      assert Decimal(n)[0] == Decimal(n / 10)[0];
    } else {
      assert Decimal(n)[..0] == [];
    }
  }

  lemma {:induction false} DecimalWrites(text: string)
    requires text != [] && AllDigits(text) && (text[0] == '0' ==> |text| == 1)
    ensures Decimal(DecimalValue(text)) == text
    ensures text[0] != '0' ==> DecimalValue(text) > 0
  {
    var front, last := text[..|text| - 1], text[|text| - 1];
    assert text == front + [last];
    if |text| > 1 {
      DecimalWrites(front);
      assert DecimalValue(text) / 10 == DecimalValue(front);
      assert DecimalValue(text) % 10 == DigitValue(last);
    } else {
      assert front == [];
      assert DecimalValue(text) == DigitValue(last);
    }
  }

  lemma DecimalInjective(a: nat, b: nat)
    requires Decimal(a) == Decimal(b)
    ensures a == b
  {
    DecimalReads(a);
    DecimalReads(b);
  }

  // ---- The order of strings --------------------------------------------------------------------------

  // Whether `a` sorts strictly before `b`, character by character.
  predicate Below(a: string, b: string)
  {
    b != [] && (a == [] || a[0] < b[0] || (a[0] == b[0] && Below(a[1..], b[1..])))
  }

  lemma {:induction false} BelowTotal(a: string, b: string)
    ensures a == b || Below(a, b) || Below(b, a)
    ensures !(Below(a, b) && Below(b, a))
    ensures !Below(a, a)
  {
    if a != [] && b != [] {
      BelowTotal(a[1..], b[1..]);
      if a[1..] == b[1..] && a[0] == b[0] {
        assert a == [a[0]] + a[1..];
      }
    }
    if a != [] {
      BelowTotal(a[1..], a[1..]);
    }
  }

  lemma {:induction false} BelowTransitive(a: string, b: string, c: string)
    requires Below(a, b) && Below(b, c)
    ensures Below(a, c)
  {
    if a != [] && a[0] == b[0] == c[0] {
      BelowTransitive(a[1..], b[1..], c[1..]);
    }
  }

  ghost predicate IsLeast(k: string, keys: set<string>)
  {
    k in keys && forall j | j in keys :: j == k || Below(k, j)
  }

  lemma LeastUnique(a: string, b: string, keys: set<string>)
    requires IsLeast(a, keys) && IsLeast(b, keys)
    ensures a == b
  {
    BelowTotal(a, b);
  }

  lemma {:induction false} LeastExists(keys: set<string>)
    requires keys != {}
    ensures exists k :: IsLeast(k, keys)
    decreases |keys|
  {
    var k :| k in keys;
    var others := keys - {k};
    if others == {} {
      assert keys == {k};
      assert IsLeast(k, keys);
    } else {
      LeastExists(others);
      var l :| IsLeast(l, others);
      BelowTotal(k, l);
      if Below(l, k) {
        assert IsLeast(l, keys);
      } else {
        forall j | j in keys ensures j == k || Below(k, j) {
          if j != k && j != l {
            BelowTransitive(k, l, j);
          }
        }
        assert IsLeast(k, keys);
      }
    }
  }

  // The members of a sorted map in the order it iterates them.
  ghost function Sorted(keys: set<string>): (r: seq<string>)
    ensures |r| == |keys|
    ensures forall k :: k in r <==> k in keys
    decreases |keys|
  {
    if keys == {} then []
    else
      LeastExists(keys);
      var k :| IsLeast(k, keys);
      var rest := Sorted(keys - {k});
      assert forall j :: j in [k] + rest <==> j in keys;
      [k] + rest
  }

  // Walks the keys as an iterator does: the least first, then the rest.
  method SortedKeys(keys: set<string>) returns (r: seq<string>)
    ensures r == Sorted(keys)
  {
    hide Sorted, IsLeast;
    NoneSorted();
    r := [];
    var todo := keys;
    while todo != {}
      invariant Sorted(keys) == r + Sorted(todo)
      decreases |todo|
    {
      var k := Least(todo);
      NextSorted(k, todo);
      assert r + ([k] + Sorted(todo - {k})) == (r + [k]) + Sorted(todo - {k});
      r := r + [k];
      todo := todo - {k};
    }
    assert r + [] == r;
  }

  lemma NoneSorted()
    ensures Sorted({}) == []
  {
  }

  lemma NextSorted(k: string, keys: set<string>)
    requires IsLeast(k, keys)
    ensures Sorted(keys) == [k] + Sorted(keys - {k})
  {
    forall j | IsLeast(j, keys) ensures j == k { LeastUnique(j, k, keys); }
  }

  method Least(keys: set<string>) returns (k: string)
    requires keys != {}
    ensures IsLeast(k, keys)
  {
    k :| k in keys;
    var todo := keys - {k};
    while todo != {}
      invariant todo <= keys && k in keys && k !in todo
      invariant forall j | j in keys - todo :: j == k || Below(k, j)
      decreases |todo|
    {
      var j :| j in todo;
      BelowTotal(j, k);
      ghost var before := k;
      if Below(j, k) {
        forall i | i in keys - todo ensures i == j || Below(j, i) {
          if i != before {
            BelowTransitive(j, before, i);
          }
        }
        k := j;
      }
      todo := todo - {j};
    }
  }
}
