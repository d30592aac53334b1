/** Small types shared by every component of the gateway model. */
module Common {
  datatype Option<+T> = None | Some(value: T)

  /** One octet of a body, and a chunk of them. */
  type byte = b: int | 0 <= b < 256
  type bytes = seq<byte>

  /** 2^53 - 1, up to which a JavaScript number counts exactly. */
  const MAX_SAFE_INTEGER: nat := 9_007_199_254_740_991

  function PowerOfTwo(n: nat): nat {
    if n == 0 then 1 else 2 * PowerOfTwo(n - 1)
  }

  lemma FivePowersOn(n: nat)
    ensures PowerOfTwo(n + 5) == 32 * PowerOfTwo(n)
  {
    assert PowerOfTwo(n + 2) == 4 * PowerOfTwo(n);
    assert PowerOfTwo(n + 4) == 4 * PowerOfTwo(n + 2);
  }

  /** The constant is what its name says. */
  lemma {:induction false} SafeIntegers()
    ensures MAX_SAFE_INTEGER + 1 == PowerOfTwo(53)
  {
    var n, power := 3, 8;
    assert PowerOfTwo(3) == 8;
    while n < 53
      invariant n <= 53 && n % 5 == 3 && PowerOfTwo(n) == power
      invariant power == [8, 256, 8_192, 262_144, 8_388_608, 268_435_456, 8_589_934_592, 274_877_906_944,
                          8_796_093_022_208, 281_474_976_710_656, 9_007_199_254_740_992][n / 5]
    {
      FivePowersOn(n);
      n, power := n + 5, 32 * power;
    }
  }

  function Max(a: int, b: int): (m: int)
    ensures a <= m && b <= m && m in {a, b}
  {
    if a >= b then a else b
  }

  function Min(a: int, b: int): (m: int)
    ensures m <= a && m <= b && m in {a, b}
  {
    if a <= b then a else b
  }

  // ---------------------------------------------------------------- the insertion order of a map

  predicate NoDuplicates<T(==)>(order: seq<T>) {
    forall i, j :: 0 <= i < j < |order| ==> order[i] != order[j]
  }

  function Erase<T(==)>(order: seq<T>, key: T): seq<T> {
    if order == [] then []
    else if order[0] == key then Erase(order[1..], key)
    else [order[0]] + Erase(order[1..], key)
  }

  lemma {:induction false} EraseOrder<T>(order: seq<T>, key: T)
    ensures forall k :: k in Erase(order, key) <==> k in order && k != key
    ensures NoDuplicates(order) ==> NoDuplicates(Erase(order, key))
  {
    if order != [] {
      EraseOrder(order[1..], key);
      assert order == [order[0]] + order[1..];
      if NoDuplicates(order) {
        assert order[0] !in order[1..];
        PrependKeepsDistinct(order[0], Erase(order[1..], key));
      }
    }
  }

  lemma PrependKeepsDistinct<T>(key: T, order: seq<T>)
    requires NoDuplicates(order) && key !in order
    ensures NoDuplicates([key] + order) && NoDuplicates(order + [key])
  {
  }

  lemma {:induction false} EraseShrinks<T>(order: seq<T>, key: T)
    ensures |Erase(order, key)| <= |order| - (if key in order then 1 else 0)
  {
    if order != [] {
      EraseShrinks(order[1..], key);
      assert key in order <==> key == order[0] || key in order[1..];
    }
  }

  // ---------------------------------------------------------------- sizes

  lemma {:induction false} SubsetSize<T>(a: set<T>, b: set<T>)
    requires a <= b
    ensures |a| <= |b|
  {
    if a != {} {
      var x :| x in a;
      SubsetSize(a - {x}, b - {x});
    }
  }

  lemma {:induction false} SequenceCovers<T>(s: seq<T>, members: set<T>)
    requires forall x :: x in members ==> x in s
    ensures |members| <= |s|
  {
    if s != [] {
      SequenceCovers(s[1..], members - {s[0]});
      SubsetSize(members, members - {s[0]} + {s[0]});
    } else {
      assert members == {};
    }
  }

  lemma Regroup<T>(a: seq<T>, b: seq<T>, c: seq<T>)
    ensures (a + b) + c == a + (b + c)
  {
  }
}
