/**
 Precedence of versions as section 11 of Semantic Versioning 2.0.0 words it, over parsed versions:
 the first difference decides, a longer list of identifiers is above its own prefix. Numbers are below
 texts, and a version without a pre-release part is above the same one with such a part.
 */
module Precedence {
  import opened Common

  datatype Ident = Numeric(value: nat) | Text(text: string)

  datatype Version = Version(main: seq<nat>, pre: Option<seq<Ident>>)

  /** `k` is the first place where the two lists differ. */
  predicate DiffersAt<T(==)>(a: seq<T>, b: seq<T>, k: nat) {
    k < |a| && k < |b| && a[..k] == b[..k] && a[k] != b[k]
  }

  /** The dictionary order over an order of the elements. */
  ghost predicate Lex<T>(a: seq<T>, b: seq<T>, below: (T, T) -> bool) {
    a < b || exists k: nat :: DiffersAt(a, b, k) && below(a[k], b[k])
  }

  ghost predicate StrictTotal<T(!new)>(below: (T, T) -> bool) {
    && (forall x :: !below(x, x))
    && (forall x, y :: x == y || below(x, y) || below(y, x))
    && (forall x, y, z :: below(x, y) && below(y, z) ==> below(x, z))
  }

  ghost const CHAR_BELOW: (char, char) -> bool := (x: char, y: char) => x < y
  ghost const NAT_BELOW: (nat, nat) -> bool := (x: nat, y: nat) => x < y
  ghost const IDENT_BELOW: (Ident, Ident) -> bool := (x: Ident, y: Ident) => IdentBelow(x, y)

  /** 11.4.1 to 11.4.3: numbers numerically, texts in ASCII order, numbers below texts. */
  ghost predicate IdentBelow(a: Ident, b: Ident) {
    match (a, b)
    case (Numeric(x), Numeric(y)) => x < y
    case (Numeric(_), Text(_)) => true
    case (Text(_), Numeric(_)) => false
    case (Text(x), Text(y)) => Lex(x, y, CHAR_BELOW)
  }

  /** 11.2 to 11.4. */
  ghost predicate Below(a: Version, b: Version) {
    if a.main != b.main then Lex(a.main, b.main, NAT_BELOW)
    else if a.pre.None? then false
    else if b.pre.None? then true
    else Lex(a.pre.value, b.pre.value, IDENT_BELOW)
  }

  // ---------------------------------------------------------------------------
  // A strict total order
  // ---------------------------------------------------------------------------

  /** At the first difference the elements decide. */
  lemma LexAt<T>(a: seq<T>, b: seq<T>, below: (T, T) -> bool, k: nat)
    requires DiffersAt(a, b, k)
    ensures Lex(a, b, below) <==> below(a[k], b[k])
    ensures a != b
  {
    if Lex(a, b, below) && !(a < b) {
      var j: nat :| DiffersAt(a, b, j) && below(a[j], b[j]);
    }
    assert !(a < b);
  }

  lemma FirstDifference<T>(a: seq<T>, b: seq<T>)
    ensures a <= b || b <= a || exists k: nat :: DiffersAt(a, b, k)
  {
    var k := 0;
    while k < |a| && k < |b| && a[k] == b[k]
      invariant k <= |a| && k <= |b| && a[..k] == b[..k]
    {
      k := k + 1;
    }
    assert k < |a| && k < |b| ==> DiffersAt(a, b, k);
    assert k == |a| ==> a <= b;
    assert k == |b| ==> b <= a;
  }

  lemma LexConnected<T(!new)>(a: seq<T>, b: seq<T>, below: (T, T) -> bool)
    requires StrictTotal(below)
    ensures a == b || Lex(a, b, below) || Lex(b, a, below)
    ensures !(Lex(a, b, below) && Lex(b, a, below))
    ensures !Lex(a, a, below)
  {
    FirstDifference(a, b);
    if k: nat :| DiffersAt(a, b, k) {
      LexAt(a, b, below, k);
      assert DiffersAt(b, a, k);
      LexAt(b, a, below, k);
      assert !(below(a[k], b[k]) && below(b[k], a[k]));
    } else {
      forall j: nat ensures !DiffersAt(a, b, j) && !DiffersAt(b, a, j) {
        if j < |a| && j < |b| {
          assert a <= b ==> a[j] == b[j];
          assert b <= a ==> a[j] == b[j];
        }
      }
    }
  }

  lemma LexTransitive<T(!new)>(a: seq<T>, b: seq<T>, c: seq<T>, below: (T, T) -> bool)
    requires StrictTotal(below) && Lex(a, b, below) && Lex(b, c, below)
    ensures Lex(a, c, below)
  {
    if a < b {
      if !(b < c) {
        var k: nat :| DiffersAt(b, c, k) && below(b[k], c[k]);
        if k < |a| {
          assert a[..k] == b[..k];
          assert DiffersAt(a, c, k);
        } else {
          assert a == b[..|a|] && c[..|a|] == c[..k][..|a|];
        }
      }
    } else {
      var j: nat :| DiffersAt(a, b, j) && below(a[j], b[j]);
      if b < c {
        assert c[..j] == b[..j];
        assert DiffersAt(a, c, j);
      } else {
        var k: nat :| DiffersAt(b, c, k) && below(b[k], c[k]);
        TwoDifferences(a, b, c, below, j, k);
      }
    }
  }

  lemma TwoDifferences<T(!new)>(a: seq<T>, b: seq<T>, c: seq<T>, below: (T, T) -> bool, j: nat, k: nat)
    requires StrictTotal(below)
    requires DiffersAt(a, b, j) && below(a[j], b[j]) && DiffersAt(b, c, k) && below(b[k], c[k])
    ensures Lex(a, c, below)
  {
    var m := if j < k then j else k;
    assert a[..m] == a[..j][..m] == b[..j][..m] == b[..m];
    assert c[..m] == c[..k][..m] == b[..k][..m] == b[..m];
    if j < k {
      assert b[..k][j] == c[..k][j];
    } else if k < j {
      assert a[..j][k] == b[..j][k];
    }
    assert DiffersAt(a, c, m);
  }

  lemma BasicOrders()
    ensures StrictTotal(CHAR_BELOW) && StrictTotal(NAT_BELOW)
  {
  }

  lemma IdentOrder()
    ensures StrictTotal(IDENT_BELOW)
  {
    forall x: Ident ensures !IDENT_BELOW(x, x) {
      if x.Text? { LexConnected(x.text, x.text, CHAR_BELOW); }
    }
    forall x: Ident, y: Ident ensures x == y || IDENT_BELOW(x, y) || IDENT_BELOW(y, x) {
      if x.Text? && y.Text? { LexConnected(x.text, y.text, CHAR_BELOW); }
    }
    forall x: Ident, y: Ident, z: Ident | IDENT_BELOW(x, y) && IDENT_BELOW(y, z) ensures IDENT_BELOW(x, z) {
      if x.Text? { LexTransitive(x.text, y.text, z.text, CHAR_BELOW); }
    }
  }

  /** Of two different versions exactly one is below the other. */
  lemma BelowConnected(a: Version, b: Version)
    ensures a == b || Below(a, b) || Below(b, a)
    ensures !(Below(a, b) && Below(b, a)) && !Below(a, a)
  {
    IdentOrder();
    LexConnected(a.main, b.main, NAT_BELOW);
    if a.pre.Some? {
      LexConnected(a.pre.value, a.pre.value, IDENT_BELOW);
      if b.pre.Some? {
        LexConnected(a.pre.value, b.pre.value, IDENT_BELOW);
      }
    }
  }

  lemma BelowTransitive(a: Version, b: Version, c: Version)
    requires Below(a, b) && Below(b, c)
    ensures Below(a, c)
  {
    IdentOrder();
    if a.main != b.main && b.main != c.main {
      LexTransitive(a.main, b.main, c.main, NAT_BELOW);
      LexConnected(a.main, c.main, NAT_BELOW);
    } else if a.main == b.main == c.main && c.pre.Some? {
      LexTransitive(a.pre.value, b.pre.value, c.pre.value, IDENT_BELOW);
    }
  }
}
