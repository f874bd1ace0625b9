/**
 `SELECT id ... ORDER BY major, minor, id LIMIT n` as a function on sets.

 Every ordered query of the queue ends in `id`, the primary key, so the order
 is total on the rows it ranks. A row is kept when fewer than `n` rows of the
 result set come before it; a negative LIMIT is SQLite's "no limit".
 */
module Ranking {

  datatype Key = Key(major: int, minor: int, id: int)

  predicate Before(a: Key, b: Key)
  {
    a.major < b.major
    || (a.major == b.major && a.minor < b.minor)
    || (a.major == b.major && a.minor == b.minor && a.id < b.id)
  }

  function Ahead(c: set<Key>, k: Key): set<Key>
  {
    set j | j in c && Before(j, k)
  }

  function TopN(c: set<Key>, n: int): set<Key>
  {
    if n < 0 then c else set k | k in c && |Ahead(c, k)| < n
  }

  function Ids(c: set<Key>): set<int>
  {
    set k | k in c :: k.id
  }

  function Min(a: int, b: int): int
  {
    if a < b then a else b
  }

  /** The independent meaning of "the first n of c": a subset of the right size whose members all precede the rest. */
  ghost predicate IsFirstN(s: set<Key>, c: set<Key>, n: nat)
  {
    && s <= c
    && |s| == Min(n, |c|)
    && forall a, b :: a in s && b in c && b !in s ==> Before(a, b)
  }

  lemma {:induction false} SubsetCard<T>(a: set<T>, b: set<T>)
    requires a <= b
    ensures |a| <= |b|
    ensures |a| == |b| ==> a == b
    decreases |a|
  {
    if a == {} {
    } else {
      var x :| x in a;
      SubsetCard(a - {x}, b - {x});
      assert a == (a - {x}) + {x} && b == (b - {x}) + {x};
    }
  }

  lemma {:induction false} LastExists(c: set<Key>) returns (m: Key)
    requires c != {}
    ensures m in c
    ensures forall k :: k in c && k != m ==> Before(k, m)
    decreases |c|
  {
    m :| m in c;
    if c != {m} {
      var rest := LastExists(c - {m});
      forall k | k in c && k != m
        ensures k in c - {m}
      {
      }
      if Before(m, rest) {
        m := rest;
      }
    }
  }

  lemma AheadSmaller(c: set<Key>, k: Key)
    requires k in c
    ensures |Ahead(c, k)| < |c|
  {
    SubsetCard(Ahead(c, k), c - {k});
  }

  /** LIMIT n returns n rows whenever there are n. */
  lemma {:induction false} TopNCard(c: set<Key>, n: nat)
    ensures |TopN(c, n)| == Min(n, |c|)
    decreases |c|
  {
    if c == {} {
      assert TopN(c, n) == {};
    } else {
      var m := LastExists(c);
      var rest := c - {m};
      TopNCard(rest, n);
      forall k | k in rest
        ensures Ahead(c, k) == Ahead(rest, k)
      {
      }
      assert Ahead(c, m) == rest;
      if |rest| < n {
        assert TopN(c, n) == TopN(rest, n) + {m};
      } else {
        assert TopN(c, n) == TopN(rest, n);
      }
    }
  }

  lemma TopNClosed(c: set<Key>, n: int, j: Key, k: Key)
    requires k in TopN(c, n) && j in c && Before(j, k)
    ensures j in TopN(c, n)
  {
    SubsetCard(Ahead(c, j), Ahead(c, k));
  }

  /** ORDER BY/LIMIT returns the first n rows, and only one set is that. */
  lemma TopNMeaning(s: set<Key>, c: set<Key>, n: nat)
    ensures s == TopN(c, n) <==> IsFirstN(s, c, n)
  {
    var t := TopN(c, n);
    TopNCard(c, n);
    forall a, b | a in t && b in c && b !in t
      ensures Before(a, b)
    {
      if Before(b, a) {
        TopNClosed(c, n, b, a);
      }
    }
    assert IsFirstN(t, c, n);
    if IsFirstN(s, c, n) && s != t {
      if !(s <= t) && !(t <= s) {
        var a :| a in s && a !in t;
        var b :| b in t && b !in s;
      } else if s <= t {
        SubsetCard(s, t);
      } else {
        SubsetCard(t, s);
      }
      assert false;
    }
  }

  /** A row LIMIT n cut off has n kept rows ahead of it. */
  lemma CutOffHasN(c: set<Key>, n: nat, k: Key)
    requires k in c && k !in TopN(c, n)
    ensures |TopN(c, n)| == n
    ensures TopN(c, n) <= Ahead(c, k)
  {
    TopNCard(c, n);
    TopNMeaning(TopN(c, n), c, n);
    AheadSmaller(c, k);
  }

  /** Limiting one arm of a UNION before the final LIMIT changes nothing. */
  lemma TwoArms(a: set<Key>, b: set<Key>, n: int)
    ensures TopN(TopN(a, n) + b, n) == TopN(a + b, n)
  {
    if n >= 0 {
      var u, v := a + b, TopN(a, n) + b;
      forall k | k in u
        ensures k in TopN(u, n) <==> k in v && k in TopN(v, n)
      {
        SubsetCard(Ahead(v, k), Ahead(u, k));
        SubsetCard(Ahead(a, k), Ahead(u, k));
        if Ahead(v, k) != Ahead(u, k) {
          var j :| j in Ahead(u, k) && j !in Ahead(v, k);
          CutOffHasN(a, n, j);
          assert TopN(a, n) <= Ahead(v, k);
          SubsetCard(TopN(a, n), Ahead(v, k));
        }
      }
    }
  }

  /** Rows that are not among the first n can be left out of the query. */
  lemma DropUnranked(e: set<Key>, d: set<Key>, n: int)
    requires TopN(e, n) !! d
    ensures TopN(e - d, n) == TopN(e, n)
  {
    if n >= 0 {
      forall k | k in e
        ensures k in TopN(e, n) <==> k in e - d && k in TopN(e - d, n)
      {
        SubsetCard(Ahead(e - d, k), Ahead(e, k));
        if k !in TopN(e, n) {
          CutOffHasN(e, n, k);
          SubsetCard(TopN(e, n), Ahead(e - d, k));
        } else {
          forall j | j in Ahead(e, k)
            ensures j in Ahead(e - d, k)
          {
            TopNClosed(e, n, j, k);
          }
        }
      }
    } else {
      assert e - d == e;
    }
  }

  lemma TopNNonempty(c: set<Key>, n: int)
    requires n != 0 && c != {}
    ensures TopN(c, n) != {}
  {
    if n > 0 {
      TopNCard(c, n);
      assert |c| != 0;
      assert |TopN(c, n)| != 0;
    }
  }
}
