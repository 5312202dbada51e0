/** Concatenations grouped differently. */
module Sequences {
  lemma Regroup2<T>(a: seq<T>, b: seq<T>, rest: seq<T>)
    ensures a + b + rest == a + (b + rest)
  {
  }

  lemma Regroup3<T>(a: seq<T>, b: seq<T>, c: seq<T>, rest: seq<T>)
    ensures a + (b + c) + rest == a + (b + (c + rest))
  {
  }

  lemma Regroup4<T>(a: seq<T>, b: seq<T>, c: seq<T>, d: seq<T>, rest: seq<T>)
    ensures a + (b + (c + d)) + rest == a + (b + (c + (d + rest)))
  {
    Regroup3(b, c, d, rest);
    Regroup2(a, b + (c + d), rest);
  }

  lemma Flat3<T>(a: seq<T>, b: seq<T>, c: seq<T>, d: seq<T>)
    ensures a + b + c + d == a + (b + (c + d))
  {
  }

  lemma Flat4<T>(a: seq<T>, b: seq<T>, c: seq<T>, d: seq<T>, e: seq<T>)
    ensures a + b + c + d + e == a + (b + (c + (d + e)))
  {
    Flat3(a + b, c, d, e);
    Regroup2(a, b, c + (d + e));
  }

  lemma Flat5<T>(a: seq<T>, b: seq<T>, c: seq<T>, d: seq<T>, e: seq<T>, f: seq<T>)
    ensures a + b + c + d + e + f == a + (b + (c + (d + (e + f))))
  {
    Flat3(a + b, c, d, e + f);
    Regroup2(a + b + c + d, e, f);
    Regroup2(a, b, c + (d + (e + f)));
  }

  lemma Head<T>(x: T, t: seq<T>)
    ensures ([x] + t)[0] == x && ([x] + t)[1..] == t
  {
  }
}
