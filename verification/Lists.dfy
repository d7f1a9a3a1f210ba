/** Lists of request numbers, as the kernel's linked lists hold them. */
module Lists {

  /** The list without one of its members (list_del, rb_erase). */
  function Without(s: seq<nat>, x: nat): seq<nat> {
    if s == [] then [] else (if s[0] == x then [] else [s[0]]) + Without(s[1..], x)
  }

  function Reverse(s: seq<nat>): seq<nat> {
    if s == [] then [] else Reverse(s[1..]) + [s[0]]
  }

  ghost predicate Distinct(s: seq<nat>) {
    s == [] || (s[0] !in s[1..] && Distinct(s[1..]))
  }

  lemma InHeadTail(s: seq<nat>)
    requires s != []
    ensures forall x :: x in s <==> x == s[0] || x in s[1..]
  {
    assert s == [s[0]] + s[1..];
  }

  lemma {:induction false} DistinctAt(s: seq<nat>)
    ensures Distinct(s) <==> forall j, k | 0 <= j < k < |s| :: s[j] != s[k]
  {
    if s != [] {
      DistinctAt(s[1..]);
      assert forall j | 0 <= j < |s| - 1 :: s[1..][j] == s[j + 1];
      if Distinct(s) {
        forall j, k | 0 <= j < k < |s| ensures s[j] != s[k] {
          assert s[k] == s[1..][k - 1];
        }
      }
    }
  }

  lemma {:induction false} WithoutIn(s: seq<nat>, x: nat)
    ensures forall y :: y in Without(s, x) <==> y in s && y != x
  {
    if s != [] {
      WithoutIn(s[1..], x);
      InHeadTail(s);
    }
  }

  lemma {:induction false} WithoutDistinct(s: seq<nat>, x: nat)
    requires Distinct(s)
    ensures Distinct(Without(s, x))
    ensures |Without(s, x)| == |s| - if x in s then 1 else 0
  {
    if s != [] {
      WithoutDistinct(s[1..], x);
      WithoutIn(s[1..], x);
      InHeadTail(s);
      var t := Without(s[1..], x);
      assert ([s[0]] + t)[1..] == t;
      assert [] + t == t;
    }
  }

  lemma {:induction false} WithoutAbsent(s: seq<nat>, x: nat)
    requires x !in s
    ensures Without(s, x) == s
  {
    if s != [] {
      InHeadTail(s);
      WithoutAbsent(s[1..], x);
    }
  }

  lemma {:induction false} AppendDistinct(s: seq<nat>, x: nat)
    requires Distinct(s) && x !in s
    ensures Distinct(s + [x])
  {
    if s == [] {
      assert s + [x] == [x];
    } else {
      InHeadTail(s);
      AppendDistinct(s[1..], x);
      assert (s + [x])[1..] == s[1..] + [x];
    }
  }
}
