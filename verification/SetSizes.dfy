/** Sizes of finite sets of block numbers. */
module SetSizes {

  lemma SomeMember(s: set<int>)
    requires s != {}
    ensures exists x: int :: x in s
  {
    if forall x: int :: x !in s {
      assert false;
    }
  }

  lemma AddOne(s: set<int>, x: int)
    ensures |s + {x}| <= |s| + 1
  {
    if x in s {
      assert s + {x} == s;
    }
  }

  lemma {:induction false} SizeOfUnion(s: set<int>, t: set<int>)
    ensures |s + t| <= |s| + |t|
    decreases t
  {
    if t == {} {
      assert s + t == s;
    } else {
      SomeMember(t);
      var x :| x in t;
      SizeOfUnion(s + {x}, t - {x});
      AddOne(s, x);
      assert s + {x} + (t - {x}) == s + t;
    }
  }

  lemma {:induction false} SizeOfPart(s: set<int>, t: set<int>)
    requires forall x: int :: x in s ==> x in t
    ensures |s| <= |t|
    decreases t
  {
    if s != {} {
      SomeMember(s);
      var x :| x in s;
      SizeOfPart(s - {x}, t - {x});
    }
  }

  lemma {:induction false} DisjointSize(s: set<int>, t: set<int>)
    requires forall x: int :: x in s ==> x !in t
    ensures |s + t| == |s| + |t|
    decreases t
  {
    if t == {} {
      assert s + t == s;
    } else {
      SomeMember(t);
      var x :| x in t;
      DisjointSize(s + {x}, t - {x});
      assert s + {x} + (t - {x}) == s + t;
    }
  }

  /** The numbers below n. */
  ghost function Below(n: nat): (s: set<int>)
    ensures |s| == n && forall b: int :: b in s <==> 0 <= b < n
  {
    if n == 0 then {} else Below(n - 1) + {n - 1}
  }
}
