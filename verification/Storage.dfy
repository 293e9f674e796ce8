/** storage.py: the dedupe registry in SQLite and the append-only NDJSON log. */
module Storage {
  import opened Options

  /** One public fill. `identity` is what trade_identity computes from it and
      `publicMs` what parse_ts_to_ms makes of its timestamp (None: unparseable). */
  datatype Record = Record(identity: string, publicMs: Option<int>, body: string)

  function Identities(rs: seq<Record>): seq<string> {
    seq(|rs|, i requires 0 <= i < |rs| => rs[i].identity)
  }

  function IdSet(rs: seq<Record>): set<string> {
    set r | r in rs :: r.identity
  }

  ghost predicate DistinctIds(rs: seq<Record>) {
    forall i, j :: 0 <= i < j < |rs| ==> rs[i].identity != rs[j].identity
  }

  lemma IdSetConcat(a: seq<Record>, b: seq<Record>)
    ensures IdSet(a + b) == IdSet(a) + IdSet(b)
  {
    forall k | k in IdSet(a) + IdSet(b) ensures k in IdSet(a + b) {
      var r :| (r in a || r in b) && r.identity == k;
      assert r in a + b;
    }
  }

  /** The plain, order-preserving filter that the chunked query must equal. */
  function FreshKeys(keys: seq<string>, known: set<string>): seq<string> {
    if keys == [] then []
    else (if keys[0] in known then [] else [keys[0]]) + FreshKeys(keys[1..], known)
  }

  lemma {:induction false} FreshKeysConcat(a: seq<string>, b: seq<string>, known: set<string>)
    ensures FreshKeys(a + b, known) == FreshKeys(a, known) + FreshKeys(b, known)
  {
    if a == [] {
      assert a + b == b;
    } else {
      assert (a + b)[1..] == a[1..] + b;
      FreshKeysConcat(a[1..], b, known);
    }
  }

  /** Only the part of the registry that meets the keys matters. */
  lemma {:induction false} FreshKeysLocal(keys: seq<string>, known: set<string>, existing: set<string>)
    requires forall k :: k in keys ==> (k in known <==> k in existing)
    ensures FreshKeys(keys, known) == FreshKeys(keys, existing)
  {
    if keys != [] {
      FreshKeysLocal(keys[1..], known, existing);
    }
  }

  lemma {:induction false} FreshKeysMembers(keys: seq<string>, known: set<string>)
    ensures forall k :: k in FreshKeys(keys, known) <==> k in keys && k !in known
  {
    if keys != [] {
      FreshKeysMembers(keys[1..], known);
      assert keys == [keys[0]] + keys[1..];
    }
  }

  /** `INSERT OR IGNORE` for each key in turn. */
  function Registered(rows: map<(string, string), string>, namespace: string, keys: seq<string>, runId: string)
    : map<(string, string), string>
  {
    if keys == [] then rows
    else
      var rest := Registered(rows, namespace, keys[..|keys| - 1], runId);
      var row := (namespace, keys[|keys| - 1]);
      if row in rest then rest else rest[row := runId]
  }

  /** Registering adds exactly the given keys, in that namespace only, and never
      overwrites the run that saw a key first. */
  lemma {:induction false} RegisteredRows(rows: map<(string, string), string>, namespace: string, keys: seq<string>,
      runId: string)
    ensures var after := Registered(rows, namespace, keys, runId);
      && (forall p :: p in after <==> p in rows || (p.0 == namespace && p.1 in keys))
      && (forall p :: p in rows ==> after[p] == rows[p])
      && (forall p :: p in after && p !in rows ==> after[p] == runId)
  {
    if keys != [] {
      var init := keys[..|keys| - 1];
      RegisteredRows(rows, namespace, init, runId);
      assert keys == init + [keys[|keys| - 1]];
      assert forall k :: k in keys <==> k in init || k == keys[|keys| - 1];
    }
  }

  function KeysIn(rows: map<(string, string), string>, namespace: string): set<string> {
    set p | p in rows && p.0 == namespace :: p.1
  }

  class SqliteState {
    /** Rows this connection sees. */
    var dedupe: map<(string, string), string>
    /** Rows of the last commit: what a crash leaves behind. */
    var committed: map<(string, string), string>

    constructor ()
      ensures dedupe == committed == map[]
    {
      dedupe := map[];
      committed := map[];
    }

    method FilterNewKeys(namespace: string, keys: seq<string>) returns (unseen: seq<string>)
      ensures unseen == FreshKeys(keys, KeysIn(dedupe, namespace))
    {
      unseen := [];
      var start := 0;
      while start < |keys|
        invariant 0 <= start <= |keys|
        invariant unseen == FreshKeys(keys[..start], KeysIn(dedupe, namespace))
      {
        var stop := if start + 500 < |keys| then start + 500 else |keys|;
        var chunk := keys[start..stop];
        var existing := set k | k in chunk && (namespace, k) in dedupe;
        ghost var known := KeysIn(dedupe, namespace);
        forall k | k in chunk ensures k in known <==> k in existing {
          assert (namespace, k).1 == k;
        }
        FreshKeysLocal(chunk, known, existing);
        FreshKeysConcat(keys[..start], chunk, known);
        assert keys[..stop] == keys[..start] + chunk;
        unseen := unseen + FreshKeys(chunk, existing);
        start := stop;
      }
      assert keys[..start] == keys;
    }

    method RegisterKeys(namespace: string, keys: seq<string>, runId: string) returns (inserted: nat)
      modifies this
      ensures dedupe == Registered(old(dedupe), namespace, keys, runId)
      ensures committed == dedupe
      ensures inserted == |dedupe| - |old(dedupe)|
    {
      inserted := 0;
      for i := 0 to |keys|
        invariant dedupe == Registered(old(dedupe), namespace, keys[..i], runId)
        invariant committed == old(committed)
        invariant inserted == |dedupe| - |old(dedupe)|
      {
        assert keys[..i + 1][..i] == keys[..i];
        if (namespace, keys[i]) !in dedupe {
          dedupe := dedupe[(namespace, keys[i]) := runId];
          inserted := inserted + 1;
        }
      }
      assert keys[..|keys|] == keys;
      committed := dedupe;
    }
  }

  class AppendOnlyNDJSON {
    /** Lines handed to the file object. */
    var lines: seq<Record>
    /** How many of them an fsync has made durable. */
    var flushed: nat

    constructor ()
      ensures lines == [] && flushed == 0
    {
      lines := [];
      flushed := 0;
    }

    method Append(record: Record)
      modifies this`lines
      ensures lines == old(lines) + [record]
    {
      lines := lines + [record];
    }

    method Flush()
      modifies this`flushed
      ensures flushed == |lines|
    {
      flushed := |lines|;
    }

    method AppendMany(records: seq<Record>) returns (count: nat)
      modifies this
      ensures lines == old(lines) + records && flushed == |lines|
      ensures count == |records|
    {
      count := 0;
      for i := 0 to |records|
        invariant lines == old(lines) + records[..i]
        invariant count == i
      {
        Append(records[i]);
        count := count + 1;
      }
      Flush();
    }
  }
}
