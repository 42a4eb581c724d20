/** The orders Python uses when it compares strings, station objects and lists:
    lexicographic, with a proper prefix coming first. */
module Order {

  /** Lexicographic order on sequences, built from a strict order on elements. */
  predicate Lex<T(==)>(a: seq<T>, b: seq<T>, less: (T, T) -> bool)
    decreases |a|
  {
    if |a| == 0 then |b| > 0
    else if |b| == 0 then false
    else if a[0] != b[0] then less(a[0], b[0])
    else Lex(a[1..], b[1..], less)
  }

  /** `less` is irreflexive, transitive and relates any two distinct values. */
  ghost predicate StrictTotal<T(!new)>(less: (T, T) -> bool)
  {
    && (forall x :: !less(x, x))
    && (forall x, y, z :: less(x, y) && less(y, z) ==> less(x, z))
    && (forall x, y :: x != y ==> less(x, y) || less(y, x))
  }

  /** Code-point order on characters, as Python compares the characters of a str. */
  predicate CharLess(x: char, y: char)
  {
    x < y
  }

  /** `Istasyon.__lt__`: stations compare by their ids, ids as Python strings. */
  predicate IdLess(a: string, b: string): (r: bool)
    ensures r ==> a != b && !Lex(b, a, CharLess)
  {
    assert StrictTotal(CharLess);
    LexAsymmetric(a, b, CharLess);
    Lex(a, b, CharLess)
  }

  /** Python's `<` on two lists of stations: element by element, by id. */
  predicate PathLess(p: seq<string>, q: seq<string>): (r: bool)
    ensures r ==> p != q && !Lex(q, p, IdLess)
  {
    IdLessStrictTotal();
    LexAsymmetric(p, q, IdLess);
    Lex(p, q, IdLess)
  }

  lemma {:induction false} LexIrreflexive<T>(a: seq<T>, less: (T, T) -> bool)
    ensures !Lex(a, a, less)
    decreases |a|
  {
    if |a| > 0 {
      LexIrreflexive(a[1..], less);
    }
  }

  lemma {:induction false} LexTransitive<T(!new)>(a: seq<T>, b: seq<T>, c: seq<T>, less: (T, T) -> bool)
    requires StrictTotal(less)
    requires Lex(a, b, less) && Lex(b, c, less)
    ensures Lex(a, c, less)
    decreases |a|
  {
    if |a| > 0 && a[0] == b[0] && b[0] == c[0] {
      LexTransitive(a[1..], b[1..], c[1..], less);
    }
  }

  lemma {:induction false} LexTotal<T(!new)>(a: seq<T>, b: seq<T>, less: (T, T) -> bool)
    requires StrictTotal(less)
    requires a != b
    ensures Lex(a, b, less) || Lex(b, a, less)
    decreases |a|
  {
    if |a| > 0 && |b| > 0 && a[0] == b[0] {
      assert a == [a[0]] + a[1..] && b == [b[0]] + b[1..];
      LexTotal(a[1..], b[1..], less);
    }
  }

  /** Under a strict total element order, two sequences are never ordered both ways. */
  lemma LexAsymmetric<T(!new)>(a: seq<T>, b: seq<T>, less: (T, T) -> bool)
    requires StrictTotal(less)
    ensures Lex(a, b, less) ==> a != b && !Lex(b, a, less)
  {
    LexIrreflexive(a, less);
    if Lex(a, b, less) && Lex(b, a, less) {
      LexTransitive(a, b, a, less);
    }
  }

  /** Lexicographic extension preserves strict totality. */
  lemma LexStrictTotal<T(!new)>(less: (T, T) -> bool)
    requires StrictTotal(less)
    ensures forall a: seq<T> :: !Lex(a, a, less)
    ensures forall a: seq<T>, b: seq<T>, c: seq<T> :: Lex(a, b, less) && Lex(b, c, less) ==> Lex(a, c, less)
    ensures forall a: seq<T>, b: seq<T> :: a != b ==> Lex(a, b, less) || Lex(b, a, less)
  {
    forall a: seq<T> ensures !Lex(a, a, less) {
      LexIrreflexive(a, less);
    }
    forall a: seq<T>, b: seq<T>, c: seq<T> | Lex(a, b, less) && Lex(b, c, less)
      ensures Lex(a, c, less)
    {
      LexTransitive(a, b, c, less);
    }
    forall a: seq<T>, b: seq<T> | a != b ensures Lex(a, b, less) || Lex(b, a, less) {
      LexTotal(a, b, less);
    }
  }

  /** `Istasyon.__lt__` is a strict total order on ids, so stations with distinct ids are
      always ordered one way or the other. */
  lemma IdLessStrictTotal()
    ensures StrictTotal(IdLess)
  {
    assert StrictTotal(CharLess);
    LexStrictTotal(CharLess);
  }

  /** Comparing two routes as Python lists of stations is a strict total order too. */
  lemma PathLessStrictTotal()
    ensures StrictTotal(PathLess)
  {
    IdLessStrictTotal();
    LexStrictTotal(IdLess);
  }
}
