/** The hash chain of an append-only table: its head commits to the whole history of payloads.
  *
  * The hash is a parameter: any function whose results look like SHA-256 in lower-case hexadecimal.
  * That it has no collision is assumed only of the rows compared, as a hypothesis of the theorem.
  */
module HashChain {
  import opened Common
  import opened Json

  datatype Row = Row(payload: Json, prev: Option<string>, hash: string)

  predicate IsHash(h: string) {
    |h| == 64 && forall i :: 0 <= i < |h| ==> '0' <= h[i] <= '9' || 'a' <= h[i] <= 'f'
  }

  ghost predicate Hashes(hash: string -> string) {
    forall s: string :: IsHash(hash(s))
  }

  /** A payload is a dictionary. */
  predicate IsPayload(v: Json) {
    v.Obj? && KeysDistinct(v)
  }

  /** The text that is hashed: the previous hash, if any, and the canonical JSON of the payload. */
  function Base(prev: Option<string>, payload: Json): string {
    (if prev.Some? then prev.value else "") + CanonicalJson(payload)
  }

  /** The hash of the last row. */
  function Tail(rows: seq<Row>): Option<string> {
    if rows == [] then None else Some(rows[|rows| - 1].hash)
  }

  function NextRow(hash: string -> string, rows: seq<Row>, payload: Json): Row {
    Row(payload, Tail(rows), hash(Base(Tail(rows), payload)))
  }

  /** Each row was computed from the one before it. */
  ghost predicate Chained(hash: string -> string, rows: seq<Row>) {
    forall i :: 0 <= i < |rows| ==> IsPayload(rows[i].payload) && rows[i] == NextRow(hash, rows[..i], rows[i].payload)
  }

  ghost function History(rows: seq<Row>): seq<Value> {
    seq(|rows|, i requires 0 <= i < |rows| => Denote(rows[i].payload))
  }

  /** The texts hashed along a chain. */
  ghost function Bases(rows: seq<Row>): set<string> {
    set r | r in rows :: Base(r.prev, r.payload)
  }

  ghost predicate NoCollision(hash: string -> string, texts: set<string>) {
    forall s, t :: s in texts && t in texts && hash(s) == hash(t) ==> s == t
  }

  lemma ObjectOpens(payload: Json)
    requires payload.Obj?
    ensures CanonicalJson(payload) != "" && CanonicalJson(payload)[0] == '{'
  {
  }

  /** The hashed text determines the previous hash and the payload's text: the object's opening brace is
    * the first brace, since a hash has none. */
  lemma BaseSplits(p: Option<string>, a: Json, q: Option<string>, b: Json)
    requires a.Obj? && b.Obj?
    requires p.Some? ==> IsHash(p.value)
    requires q.Some? ==> IsHash(q.value)
    requires Base(p, a) == Base(q, b)
    ensures p == q && CanonicalJson(a) == CanonicalJson(b)
  {
    ObjectOpens(a);
    ObjectOpens(b);
    var s := if p.Some? then p.value else "";
    var t := if q.Some? then q.value else "";
    var text := Base(p, a);
    assert text[|s|] == '{' && text[|t|] == '{';
    assert |s| == |t|;
    assert s == text[..|s|] && t == text[..|t|];
    assert CanonicalJson(a) == text[|s|..] && CanonicalJson(b) == text[|t|..];
  }

  lemma PrefixChained(hash: string -> string, rows: seq<Row>)
    requires Chained(hash, rows) && rows != []
    ensures Chained(hash, rows[..|rows| - 1])
  {
    var front := rows[..|rows| - 1];
    forall i | 0 <= i < |front|
      ensures IsPayload(front[i].payload) && front[i] == NextRow(hash, front[..i], front[i].payload)
    {
      assert front[..i] == rows[..i];
    }
  }

  lemma AppendChained(hash: string -> string, rows: seq<Row>, payload: Json)
    requires Chained(hash, rows) && IsPayload(payload)
    ensures Chained(hash, rows + [NextRow(hash, rows, payload)])
  {
    var after := rows + [NextRow(hash, rows, payload)];
    forall i | 0 <= i < |after|
      ensures IsPayload(after[i].payload) && after[i] == NextRow(hash, after[..i], after[i].payload)
    {
      if i < |rows| {
        assert after[..i] == rows[..i];
      } else {
        assert after[..i] == rows;
      }
    }
  }

  lemma TailIsHash(hash: string -> string, rows: seq<Row>)
    requires Hashes(hash) && Chained(hash, rows)
    ensures Tail(rows).Some? ==> IsHash(Tail(rows).value)
  {
    if rows != [] {
      assert rows[|rows| - 1] == NextRow(hash, rows[..|rows| - 1], rows[|rows| - 1].payload);
    }
  }

  /** Every row's `prev` is the hash of the row before it; only the first has none. */
  lemma Linked(hash: string -> string, rows: seq<Row>, i: nat)
    requires Chained(hash, rows) && i < |rows|
    ensures rows[i].prev == if i == 0 then None else Some(rows[i - 1].hash)
  {
    assert rows[i] == NextRow(hash, rows[..i], rows[i].payload);
  }

  lemma HistorySplit(rows: seq<Row>)
    requires rows != []
    ensures History(rows) == History(rows[..|rows| - 1]) + [Denote(rows[|rows| - 1].payload)]
  {
  }

  /** The last step of two chains: equal heads come from equal tails and payloads of equal meaning. */
  lemma LastStep(hash: string -> string, a: seq<Row>, b: seq<Row>)
    requires Hashes(hash) && Chained(hash, a) && Chained(hash, b) && a != [] && b != []
    requires NoCollision(hash, Bases(a) + Bases(b))
    ensures var x, y := a[|a| - 1], b[|b| - 1];
            x.hash == y.hash <==> Tail(a[..|a| - 1]) == Tail(b[..|b| - 1]) && Denote(x.payload) == Denote(y.payload)
  {
    var x, y := a[|a| - 1], b[|b| - 1];
    var p, q := a[..|a| - 1], b[..|b| - 1];
    assert x == NextRow(hash, p, x.payload) && y == NextRow(hash, q, y.payload);
    PrefixChained(hash, a);
    PrefixChained(hash, b);
    TailIsHash(hash, p);
    TailIsHash(hash, q);
    CanonicalTextIsMeaning(x.payload, y.payload);
    if x.hash == y.hash {
      assert Base(x.prev, x.payload) in Bases(a) && Base(y.prev, y.payload) in Bases(b);
      BaseSplits(x.prev, x.payload, y.prev, y.payload);
    }
  }

  lemma FewerTexts(hash: string -> string, a: seq<Row>, b: seq<Row>)
    requires a != [] && b != [] && NoCollision(hash, Bases(a) + Bases(b))
    ensures NoCollision(hash, Bases(a[..|a| - 1]) + Bases(b[..|b| - 1]))
  {
    forall r | r in a[..|a| - 1] ensures r in a {
    }
    forall r | r in b[..|b| - 1] ensures r in b {
    }
    assert Bases(a[..|a| - 1]) <= Bases(a) && Bases(b[..|b| - 1]) <= Bases(b);
  }

  /** Two chains have the same head hash exactly when their payload histories are the same, row by row and
    * up to the order of keys, provided their rows do not collide. */
  lemma {:induction false} HeadCommitsToHistory(hash: string -> string, a: seq<Row>, b: seq<Row>)
    requires Hashes(hash) && Chained(hash, a) && Chained(hash, b)
    requires NoCollision(hash, Bases(a) + Bases(b))
    ensures Tail(a) == Tail(b) <==> History(a) == History(b)
    decreases |a|
  {
    if a != [] && b != [] {
      var p, q := a[..|a| - 1], b[..|b| - 1];
      LastStep(hash, a, b);
      PrefixChained(hash, a);
      PrefixChained(hash, b);
      FewerTexts(hash, a, b);
      HeadCommitsToHistory(hash, p, q);
      HistorySplit(a);
      HistorySplit(b);
      assert History(a) == History(b) ==> History(p) == History(a)[..|p|] == History(b)[..|q|] == History(q);
    } else {
      assert |History(a)| == |a| && |History(b)| == |b|;
    }
  }

  /** The four append-only tables with a chain each. */
  const ALLOWED: set<string> := {"access_decisions", "access_events", "manual_openings", "access_audit_logs"}

  class Journal {
    var tables: map<string, seq<Row>>
    const hash: string -> string

    ghost predicate Valid()
      reads this
    {
      tables.Keys == ALLOWED && forall name :: name in tables ==> Chained(hash, tables[name])
    }

    constructor (hash: string -> string)
      ensures Valid() && this.hash == hash && forall name :: name in tables ==> tables[name] == []
    {
      this.hash := hash;
      tables := map name | name in ALLOWED :: [];
    }

    /** Append a row to a table; a name outside the four is an error and writes nothing. */
    method Append(name: string, payload: Json) returns (row: Option<Row>)
      requires Valid() && IsPayload(payload)
      modifies this
      ensures Valid()
      ensures row.Some? <==> name in ALLOWED
      ensures row.None? ==> tables == old(tables)
      ensures row.Some? ==> tables == old(tables)[name := old(tables)[name] + [row.value]]
                            && row.value == NextRow(hash, old(tables)[name], payload)
    {
      if name !in ALLOWED {
        return None;
      }
      var rows := tables[name];
      var prev := if rows == [] then None else Some(rows[|rows| - 1].hash);
      var base := (if prev.Some? then prev.value else "") + CanonicalJson(payload);
      var next := Row(payload, prev, hash(base));
      AppendChained(hash, rows, payload);
      tables := tables[name := rows + [next]];
      row := Some(next);
    }
  }
}
