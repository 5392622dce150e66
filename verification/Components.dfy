/** What a byte path means to the file system: the names between its slashes.  Repeated,
    leading and trailing slashes do not count, so `foo//b` and `foo/b/` are one path. */
module Components {
  import opened Paths

  type Name = string

  predicate IsName(n: Name) {
    n != "" && '/' !in n
  }

  predicate AreNames(ns: seq<Name>) {
    forall i :: 0 <= i < |ns| ==> IsName(ns[i])
  }

  /** The number of bytes before the first slash. */
  function NameLength(p: Path): (n: nat)
    ensures n <= |p| && '/' !in p[..n]
    ensures n < |p| ==> p[n] == '/'
  {
    if p == "" || p[0] == '/' then 0 else 1 + NameLength(p[1..])
  }

  function Names(p: Path): (ns: seq<Name>)
    ensures AreNames(ns)
    decreases |p|
  {
    if p == "" then []
    else if p[0] == '/' then Names(p[1..])
    else [p[..NameLength(p)]] + Names(p[NameLength(p)..])
  }

  function Spell(ns: seq<Name>): Path {
    if ns == [] then ""
    else if |ns| == 1 then ns[0]
    else ns[0] + "/" + Spell(ns[1..])
  }

  /** A path spelled in the one way that has no needless slash. */
  ghost predicate Tidy(p: Path) {
    && p != "" && p[0] != '/' && p[|p| - 1] != '/'
    && forall i :: 0 < i < |p| ==> !(p[i - 1] == '/' && p[i] == '/')
  }

  /** Tidy, except that directories may end in a slash, as in archives and blueprints. */
  ghost predicate Written(p: Path) {
    Tidy(Trim(p))
  }

  lemma NameLengthIs(p: Path, n: nat)
    requires n <= |p| && '/' !in p[..n]
    requires n < |p| ==> p[n] == '/'
    ensures NameLength(p) == n
  {
    var m := NameLength(p);
    assert m < |p| ==> p[m] == '/';
    assert forall i :: 0 <= i < n ==> p[i] == p[..n][i];
    assert forall i :: 0 <= i < m ==> p[i] == p[..m][i];
  }

  lemma {:induction false} NamesConcat(a: Path, b: Path)
    ensures Names(a + "/" + b) == Names(a) + Names(b)
    decreases |a|
  {
    var p := a + "/" + b;
    if a == "" {
      assert p[1..] == b;
    } else if a[0] == '/' {
      assert p[1..] == a[1..] + "/" + b;
      NamesConcat(a[1..], b);
    } else {
      var n := NameLength(a);
      assert p[..n] == a[..n];
      assert p[n] == '/';
      NameLengthIs(p, n);
      assert p[n..] == a[n..] + "/" + b;
      assert n > 0;
      NamesConcat(a[n..], b);
    }
  }

  lemma NamesOfTrim(p: Path)
    ensures Names(Trim(p)) == Names(p)
  {
    if Trim(p) != p {
      NamesConcat(Trim(p), "");
      assert Trim(p) + "/" + "" == p;
    }
  }

  lemma NamesOfName(n: Name)
    requires IsName(n)
    ensures Names(n) == [n]
  {
    assert n[..|n|] == n;
    NameLengthIs(n, |n|);
  }

  lemma {:induction false} NamesOfSpell(ns: seq<Name>)
    requires AreNames(ns)
    ensures Names(Spell(ns)) == ns
    ensures ns != [] ==> Tidy(Spell(ns))
  {
    if |ns| == 1 {
      NamesOfName(ns[0]);
    } else if |ns| > 1 {
      NamesOfSpell(ns[1..]);
      NamesOfName(ns[0]);
      NamesConcat(ns[0], Spell(ns[1..]));
      TidyJoin(ns[0], Spell(ns[1..]));
    }
  }

  lemma TidyJoin(a: Path, b: Path)
    requires Tidy(a) || IsName(a)
    requires Tidy(b)
    ensures Tidy(a + "/" + b)
  {
    var p := a + "/" + b;
    forall i | 0 < i < |p| ensures !(p[i - 1] == '/' && p[i] == '/') {
      if i < |a| {
        assert p[i - 1] == a[i - 1] && p[i] == a[i];
      } else if i > |a| + 1 {
        assert p[i - 1] == b[i - |a| - 2] && p[i] == b[i - |a| - 1];
      }
    }
    assert p[|p| - 1] == b[|b| - 1];
  }

  /** Tidy paths are determined by their names. */
  lemma {:induction false} SpellOfNames(p: Path)
    requires Tidy(p)
    ensures Names(p) != [] && Spell(Names(p)) == p
    decreases |p|
  {
    var n := NameLength(p);
    if n == |p| {
      assert p[..n] == p;
    } else {
      var rest := p[n + 1..];
      TidyTail(p, n);
      SpellOfNames(rest);
      assert p[n..][1..] == rest;
      assert p == p[..n] + "/" + rest;
    }
  }

  lemma TidyTail(p: Path, n: nat)
    requires Tidy(p) && n < |p| && p[n] == '/'
    ensures Tidy(p[n + 1..])
  {
    var rest := p[n + 1..];
    assert rest[0] == p[n + 1];
    assert rest[|rest| - 1] == p[|p| - 1];
    forall i | 0 < i < |rest| ensures !(rest[i - 1] == '/' && rest[i] == '/') {
      assert rest[i - 1] == p[n + i] && rest[i] == p[n + 1 + i];
    }
  }

  /** What holds a tidy path, on a boundary, is tidy itself. */
  lemma TidyAbove(q: Path, p: Path)
    requires Tidy(p) && Under(q, p)
    ensures Tidy(q)
  {
    if q != "" {
      assert q[0] == p[0];
      assert q[|q| - 1] == p[|q| - 1];
    }
  }

  lemma {:induction false} SpellConcat(a: seq<Name>, b: seq<Name>)
    requires a != [] && b != []
    ensures Spell(a + b) == Spell(a) + "/" + Spell(b)
  {
    assert (a + b)[1..] == a[1..] + b;
    if |a| > 1 {
      SpellConcat(a[1..], b);
    } else {
      assert a[1..] + b == b;
    }
  }

  /** The byte comparison sees names: everything it finds at or under a path is so by name. */
  lemma HeldByName(r: Rule, p: Path)
    requires AtOrUnder(r.from, p)
    ensures Names(r.from) <= Names(p)
    ensures Names(Rewrite(r, p)) == Names(r.to) + Names(p)[|Names(r.from)|..]
  {
    var q := Trim(r.from);
    NamesOfTrim(r.from);
    if p == q {
      assert Names(p)[|Names(q)|..] == [];
    } else {
      var rest := p[|q| + 1..];
      assert p == q + "/" + rest;
      NamesConcat(q, rest);
      RewrittenNames(r, p, q, rest);
    }
  }

  lemma RewrittenNames(r: Rule, p: Path, q: Path, rest: Path)
    requires q == Trim(r.from) && p == q + "/" + rest
    ensures Names(Rewrite(r, p)) == Names(r.to) + Names(rest)
  {
    RewrittenBytes(r, p, q, rest);
    if rest != "" { NamesConcat(r.to, rest); }
  }

  lemma RewrittenBytes(r: Rule, p: Path, q: Path, rest: Path)
    requires q == Trim(r.from) && p == q + "/" + rest
    ensures Rewrite(r, p) == if rest == "" then r.to else r.to + "/" + rest
  {
    assert p[|q|..] == "/" + rest;
    if rest != "" { assert r.to + ("/" + rest) == r.to + "/" + rest; }
  }

  /** On written paths it misses none. */
  lemma HeldInBytes(s: Path, p: Path)
    requires Written(s) && Written(p) && Names(s) <= Names(p)
    ensures AtOrUnder(s, p)
  {
    NamesOfTrim(s);
    NamesOfTrim(p);
    TidyBelow(Trim(s), Trim(p));
    assert p[..|Trim(p)|] == Trim(p);
  }

  lemma TidyBelow(q: Path, t: Path)
    requires Tidy(q) && Tidy(t) && Names(q) <= Names(t)
    ensures Under(q, t)
  {
    SpellOfNames(q);
    SpellOfNames(t);
    var rest := Names(t)[|Names(q)|..];
    assert Names(q) + rest == Names(t);
    if rest != [] {
      SpellConcat(Names(q), rest);
      assert t == q + "/" + Spell(rest);
      assert t[..|q|] == q && t[|q|] == '/';
    } else {
      assert Names(q) == Names(t);
    }
  }
}
