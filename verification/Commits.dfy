/** The effect of a sequence of committed database transactions, id by id. */
module Commits {
  import opened Wrappers
  import opened Models
  import opened Store

  /** A transaction that went through: an object with its derived row, or a batch of removals. */
  datatype Commit =
    | Put(stored: StoredObject, row: ExpirationRow)
    | Remove(ids: set<Address>)

  /** What both tables hold for one id. */
  datatype Cell = Cell(stored: Option<StoredObject>, row: Option<ExpirationRow>)

  const ABSENT := Cell(None, None)

  function CellOf(t: Tables, x: Address): Cell {
    Cell(
      if x in t.objects then Some(t.objects[x]) else None,
      if x in t.expirations then Some(t.expirations[x]) else None)
  }

  predicate Touches(c: Commit, x: Address) {
    match c
    case Put(o, _) => o.id == x
    case Remove(ids) => x in ids
  }

  ghost predicate TouchedBy(cs: seq<Commit>, x: Address) {
    exists c <- cs :: Touches(c, x)
  }

  /** What a touched id holds afterwards. */
  function Effect(c: Commit): Cell {
    match c
    case Put(o, row) => Cell(Some(o), Some(row))
    case Remove(_) => ABSENT
  }

  function Apply(t: Tables, c: Commit): Tables {
    match c
    case Put(o, row) => Tables(t.objects[o.id := o], t.expirations[o.id := row])
    case Remove(ids) => Tables(t.objects - ids, t.expirations - ids)
  }

  function Run(t: Tables, cs: seq<Commit>): Tables {
    if cs == [] then t else Apply(Run(t, cs[..|cs| - 1]), cs[|cs| - 1])
  }

  /** `k` is the last commit that touches `x`. */
  ghost predicate IsLastTouch(cs: seq<Commit>, x: Address, k: nat) {
    && k < |cs|
    && Touches(cs[k], x)
    && forall j :: k < j < |cs| ==> !Touches(cs[j], x)
  }

  lemma ApplyCell(t: Tables, c: Commit, x: Address)
    ensures CellOf(Apply(t, c), x) == if Touches(c, x) then Effect(c) else CellOf(t, x)
  {
  }

  lemma {:induction false} RunConcat(t: Tables, a: seq<Commit>, b: seq<Commit>)
    ensures Run(t, a + b) == Run(Run(t, a), b)
  {
    if b == [] {
      assert a + b == a;
    } else {
      var n := |b| - 1;
      assert (a + b)[..|a + b| - 1] == a + b[..n];
      RunConcat(t, a, b[..n]);
    }
  }

  lemma {:induction false} RunCons(t: Tables, c: Commit, cs: seq<Commit>)
    ensures Run(t, [c] + cs) == Run(Apply(t, c), cs)
  {
    RunConcat(t, [c], cs);
    assert [c][..0] == [];
    assert Run(t, [c]) == Apply(Run(t, []), c);
  }

  /** The last touch wins, and an untouched id keeps what it had. */
  lemma {:induction false} RunIsLastTouch(t: Tables, cs: seq<Commit>, x: Address)
    ensures !TouchedBy(cs, x) ==> CellOf(Run(t, cs), x) == CellOf(t, x)
    ensures TouchedBy(cs, x) ==> exists k: nat :: IsLastTouch(cs, x, k)
    ensures forall k: nat :: IsLastTouch(cs, x, k) ==> CellOf(Run(t, cs), x) == Effect(cs[k])
  {
    if cs == [] {
    } else {
      var n := |cs| - 1;
      var init, c := cs[..n], cs[n];
      assert cs == init + [c];
      RunIsLastTouch(t, init, x);
      ApplyCell(Run(t, init), c, x);
      if Touches(c, x) {
        assert IsLastTouch(cs, x, n);
        assert forall k: nat :: IsLastTouch(cs, x, k) ==> k == n;
      } else {
        assert TouchedBy(cs, x) ==> TouchedBy(init, x);
        assert TouchedBy(init, x) ==> TouchedBy(cs, x);
        forall k: nat ensures IsLastTouch(cs, x, k) <==> IsLastTouch(init, x, k) {
        }
      }
    }
  }

  /** A touched id forgets where the run started. */
  lemma TouchedForgetsStart(t: Tables, u: Tables, cs: seq<Commit>, x: Address)
    requires TouchedBy(cs, x)
    ensures CellOf(Run(t, cs), x) == CellOf(Run(u, cs), x)
  {
    RunIsLastTouch(t, cs, x);
    RunIsLastTouch(u, cs, x);
  }

  lemma TouchedByConcat(a: seq<Commit>, b: seq<Commit>, x: Address)
    ensures TouchedBy(a + b, x) <==> TouchedBy(a, x) || TouchedBy(b, x)
  {
  }

  /** What a concatenation leaves at one id. */
  lemma ConcatCell(t: Tables, a: seq<Commit>, b: seq<Commit>, x: Address)
    ensures CellOf(Run(t, a + b), x)
         == if TouchedBy(b, x) then CellOf(Run(EMPTY, b), x) else CellOf(Run(t, a), x)
  {
    RunConcat(t, a, b);
    if TouchedBy(b, x) {
      TouchedForgetsStart(Run(t, a), EMPTY, b, x);
    } else {
      RunIsLastTouch(Run(t, a), b, x);
    }
  }

  /** Tables with the same cells are the same tables. */
  lemma SameCells(t: Tables, u: Tables)
    requires forall x :: CellOf(t, x) == CellOf(u, x)
    ensures t == u
  {
    forall x: Address
      ensures x in t.objects <==> x in u.objects
      ensures x in t.objects ==> t.objects[x] == u.objects[x]
      ensures x in t.expirations <==> x in u.expirations
      ensures x in t.expirations ==> t.expirations[x] == u.expirations[x]
    {
      assert CellOf(t, x) == CellOf(u, x);
    }
    assert t.objects == u.objects && t.expirations == u.expirations;
  }

  /** A put whose row is the decoded row of its object. */
  ghost predicate Faithful(codec: Codec, cs: seq<Commit>) {
    forall c <- cs :: c.Put? ==>
      ToExpiration(codec, c.stored) == Success(c.row) && c.row.objectId == c.stored.id
  }

  lemma ApplyKeepsAgreement(codec: Codec, t: Tables, c: Commit)
    requires Agreement(codec, t) && Faithful(codec, [c])
    ensures Agreement(codec, Apply(t, c))
  {
  }

  lemma {:induction false} RunKeepsAgreement(codec: Codec, t: Tables, cs: seq<Commit>)
    requires Agreement(codec, t) && Faithful(codec, cs)
    ensures Agreement(codec, Run(t, cs))
  {
    if cs == [] {
    } else {
      var n := |cs| - 1;
      RunKeepsAgreement(codec, t, cs[..n]);
      assert cs[n] in cs;
      ApplyKeepsAgreement(codec, Run(t, cs[..n]), cs[n]);
    }
  }
}
