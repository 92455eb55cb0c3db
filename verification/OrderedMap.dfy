/** `std::map<string, string>` as the sequence of its nodes in iteration order. */
module OrderedMap {
  datatype Pair = Pair(key: string, value: string)

  /** Lexicographic order on bytes. */
  predicate Less(a: string, b: string) {
    if b == "" then false
    else if a == "" then true
    else a[0] < b[0] || (a[0] == b[0] && Less(a[1..], b[1..]))
  }

  lemma {:induction false} LessTotal(a: string, b: string)
    ensures Less(a, b) || a == b || Less(b, a)
    ensures !(Less(a, b) && Less(b, a)) && !Less(a, a)
  {
    if a != "" && b != "" {
      LessTotal(a[1..], b[1..]);
      LessTotal(a[1..], a[1..]);
      assert a == [a[0]] + a[1..] && b == [b[0]] + b[1..];
    } else if a != "" {
      LessTotal(a[1..], a[1..]);
    }
  }

  /** One text is less than another if it is a beginning of it, or smaller at the first byte where they differ. */
  lemma {:induction false} LessIff(a: string, b: string, k: nat)
    requires k <= |a| && k <= |b| && a[..k] == b[..k]
    ensures k == |a| < |b| ==> Less(a, b)
    ensures k < |a| && k < |b| && a[k] != b[k] ==> (Less(a, b) <==> a[k] < b[k])
    decreases k
  {
    if k > 0 {
      assert a[0] == a[..k][0] == b[0] && a[1..][..k - 1] == a[..k][1..] && b[1..][..k - 1] == b[..k][1..];
      LessIff(a[1..], b[1..], k - 1);
    }
  }

  lemma {:induction false} LessTransitive(a: string, b: string, c: string)
    requires Less(a, b) && Less(b, c)
    ensures Less(a, c)
  {
    if a != "" && a[0] == b[0] == c[0] {
      LessTransitive(a[1..], b[1..], c[1..]);
    }
  }

  predicate Sorted(m: seq<Pair>) {
    forall i, j | 0 <= i < j < |m| :: Less(m[i].key, m[j].key)
  }

  predicate Has(m: seq<Pair>, key: string) {
    exists i :: 0 <= i < |m| && m[i].key == key
  }

  /** `emplace`: keeps an existing entry, inserts a new one at its place in the order. */
  function Emplace(m: seq<Pair>, key: string, value: string): (r: seq<Pair>)
    ensures |m| <= |r| <= |m| + 1
  {
    if m == [] then [Pair(key, value)]
    else if m[0].key == key then m
    else if Less(key, m[0].key) then [Pair(key, value)] + m
    else [m[0]] + Emplace(m[1..], key, value)
  }

  lemma HasCons(p: Pair, rest: seq<Pair>, key: string)
    ensures Has([p] + rest, key) <==> p.key == key || Has(rest, key)
  {
    if p.key == key {
      assert ([p] + rest)[0].key == key;
    } else if i :| 0 <= i < |rest| && rest[i].key == key {
      assert ([p] + rest)[i + 1].key == key;
    }
  }

  lemma SortedCons(p: Pair, rest: seq<Pair>)
    requires Sorted(rest) && forall q | q in rest :: Less(p.key, q.key)
    ensures Sorted([p] + rest)
  {
  }

  lemma SortedTail(m: seq<Pair>)
    requires Sorted(m) && m != []
    ensures Sorted(m[1..]) && forall q | q in m[1..] :: Less(m[0].key, q.key)
  {
  }

  lemma {:induction false} EmplaceIs(m: seq<Pair>, key: string, value: string)
    requires Sorted(m)
    ensures Sorted(Emplace(m, key, value))
    ensures Has(m, key) ==> Emplace(m, key, value) == m
    ensures !Has(m, key) ==> multiset(Emplace(m, key, value)) == multiset(m) + multiset{Pair(key, value)}
    ensures forall p :: p in Emplace(m, key, value) <==> p in m || (p == Pair(key, value) && !Has(m, key))
  {
    if m == [] {
    } else if m[0].key == key {
    } else if Less(key, m[0].key) {
      EmplaceFront(m, key, value);
    } else {
      LessTotal(key, m[0].key);
      var rest := m[1..];
      assert m == [m[0]] + rest;
      HasCons(m[0], rest, key);
      SortedTail(m);
      EmplaceIs(rest, key, value);
      SortedCons(m[0], Emplace(rest, key, value));
    }
  }

  lemma EmplaceFront(m: seq<Pair>, key: string, value: string)
    requires Sorted(m) && m != [] && Less(key, m[0].key)
    ensures Sorted([Pair(key, value)] + m) && !Has(m, key)
  {
    LessTotal(key, key);
    forall j | 0 <= j < |m| ensures Less(key, m[j].key) {
      if j > 0 {
        LessTransitive(key, m[0].key, m[j].key);
      }
    }
  }

  /** Emplacing keys in ascending order appends them. */
  lemma {:induction false} EmplaceLast(m: seq<Pair>, key: string, value: string)
    requires forall i | 0 <= i < |m| :: Less(m[i].key, key)
    ensures Emplace(m, key, value) == m + [Pair(key, value)]
  {
    if m != [] {
      LessTotal(m[0].key, key);
      EmplaceLast(m[1..], key, value);
      assert m == [m[0]] + m[1..];
    }
  }
}
