/**
 `ChecksumStream` of `lib/checksum-stream.js`: a pass-through transform that
 also pipes every byte into one hash stream per algorithm, gathers each
 hash's hex digest under the algorithm's name as the hash ends, and emits
 the gathered results once their count reaches the number of algorithms.
 The hash functions themselves are not modelled: `digest(name, data)` is
 the hex digest the named hash produces for `data`, and `unsupported(name)`
 is the error the crypto module throws for a name it does not know.
 */
module ChecksumStream {
  import opened Base

  const CRC32: string := "crc32"

  /** The hash stream behind an algorithm name. */
  datatype HashStream = Crc32Stream | CryptoHash(algorithm: string)

  /** `getHashStream`: `crc32` has its own stream, every other name goes to the crypto module. */
  function GetHashStream(algorithm: string, unsupported: string -> Option<Error>): (r: Result<HashStream>)
    ensures r.Ok? <==> algorithm == CRC32 || unsupported(algorithm).None?
    ensures r.Ok? ==> (r.value.Crc32Stream? <==> algorithm == CRC32)
    ensures r.Ok? && r.value.CryptoHash? ==> r.value.algorithm == algorithm
    ensures r.Err? ==> r.error == unsupported(algorithm).value
  {
    if algorithm == CRC32 then Ok(Crc32Stream)
    else match unsupported(algorithm)
      case Some(e) => Err(e)
      case None => Ok(CryptoHash(algorithm))
  }

  /** `createHash`: a failure to create the hash names the algorithm at the end of its message. */
  function CreateHash(algorithm: string, unsupported: string -> Option<Error>): (r: Result<HashStream>)
    ensures r.Ok? <==> GetHashStream(algorithm, unsupported).Ok?
    ensures r.Ok? ==> r == GetHashStream(algorithm, unsupported)
    ensures r.Err? ==> var e := GetHashStream(algorithm, unsupported).error;
                       r.error.code == e.code && r.error.message == e.message + " \"" + algorithm + "\""
  {
    match GetHashStream(algorithm, unsupported)
    case Ok(h) => Ok(h)
    case Err(e) => Err(Error(e.code, e.message + " \"" + algorithm + "\""))
  }

  /** One hash per algorithm, in order; the first algorithm whose hash cannot be created aborts the lot. */
  function CreateHashes(algorithms: seq<string>, unsupported: string -> Option<Error>): (r: Result<seq<HashStream>>)
    ensures r.Ok? <==> forall i :: 0 <= i < |algorithms| ==> CreateHash(algorithms[i], unsupported).Ok?
    ensures r.Ok? ==> |r.value| == |algorithms| &&
                      forall i :: 0 <= i < |algorithms| ==> r.value[i] == CreateHash(algorithms[i], unsupported).value
    ensures r.Err? ==> exists j :: 0 <= j < |algorithms| && CreateHash(algorithms[j], unsupported).Err? && r.error == CreateHash(algorithms[j], unsupported).error &&
                        forall i :: 0 <= i < j ==> CreateHash(algorithms[i], unsupported).Ok?
    decreases |algorithms|
  {
    if |algorithms| == 0 then Ok([])
    else
      var n := |algorithms| - 1;
      var before := CreateHashes(algorithms[..n], unsupported);
      if before.Err? then
        assert forall i :: 0 <= i < n ==> algorithms[..n][i] == algorithms[i];
        before
      else
        match CreateHash(algorithms[n], unsupported)
        case Err(e) => Err(e)
        case Ok(h) => Ok(before.value + [h])
  }

  /** A constructed stream: its algorithm list and the hash streams piped from it. */
  datatype Checksummer = Checksummer(algorithms: seq<string>, hashes: seq<HashStream>)

  /** The constructor: a missing algorithm list means none; hash creation errors are thrown. */
  function New(algorithms: Option<seq<string>>, unsupported: string -> Option<Error>): (r: Result<Checksummer>)
    ensures r.Ok? <==> CreateHashes(algorithms.GetOr([]), unsupported).Ok?
    ensures r.Ok? ==> r.value.algorithms == algorithms.GetOr([]) && |r.value.hashes| == |r.value.algorithms|
    ensures r.Err? ==> r.error == CreateHashes(algorithms.GetOr([]), unsupported).error
  {
    var names := algorithms.GetOr([]);
    match CreateHashes(names, unsupported)
    case Ok(hs) => Ok(Checksummer(names, hs))
    case Err(e) => Err(e)
  }

  /** The algorithm names differ pairwise. */
  predicate Distinct(algorithms: seq<string>) {
    forall i, j :: 0 <= i < j < |algorithms| ==> algorithms[i] != algorithms[j]
  }

  /** The hashes that have ended so far, named by index into `algorithms`, carry pairwise different names. */
  predicate DistinctNames(algorithms: seq<string>, ended: seq<nat>)
    requires forall j :: 0 <= j < |ended| ==> ended[j] < |algorithms|
  {
    forall i, j :: 0 <= i < j < |ended| ==> algorithms[ended[i]] != algorithms[ended[j]]
  }

  /** The names of the hashes listed in `ended`. */
  function Names(algorithms: seq<string>, ended: seq<nat>): set<string>
    requires forall j :: 0 <= j < |ended| ==> ended[j] < |algorithms|
    decreases |ended|
  {
    if |ended| == 0 then {}
    else
      var n := |ended| - 1;
      assert forall j :: 0 <= j < n ==> ended[..n][j] == ended[j];
      Names(algorithms, ended[..n]) + {algorithms[ended[n]]}
  }

  lemma {:induction false} InNames(algorithms: seq<string>, ended: seq<nat>, a: string)
    requires forall j :: 0 <= j < |ended| ==> ended[j] < |algorithms|
    ensures a in Names(algorithms, ended) <==> exists j :: 0 <= j < |ended| && algorithms[ended[j]] == a
    decreases |ended|
  {
    if |ended| > 0 {
      var n := |ended| - 1;
      var prefix := ended[..n];
      assert forall j :: 0 <= j < n ==> prefix[j] == ended[j];
      InNames(algorithms, prefix, a);
      if a in Names(algorithms, prefix) {
        var j :| 0 <= j < n && algorithms[prefix[j]] == a;
        assert algorithms[ended[j]] == a;
      }
      if j :| 0 <= j < |ended| && algorithms[ended[j]] == a {
        if j < n {
          assert algorithms[prefix[j]] == a;
        }
      }
    }
  }

  /**
   `this.results` once the hashes listed in `ended` (indices into
   `algorithms`, in the order they ended) have stored their digests.
   */
  function ResultsAfter(algorithms: seq<string>, ended: seq<nat>, data: seq<Byte>, digest: (string, seq<Byte>) -> string): (r: map<string, string>)
    requires forall j :: 0 <= j < |ended| ==> ended[j] < |algorithms|
    ensures r.Keys == Names(algorithms, ended)
    ensures forall a :: a in r ==> r[a] == digest(a, data)
    decreases |ended|
  {
    if |ended| == 0 then map[]
    else
      var n := |ended| - 1;
      var a := algorithms[ended[n]];
      assert forall j :: 0 <= j < n ==> ended[..n][j] == ended[j];
      ResultsAfter(algorithms, ended[..n], data, digest)[a := digest(a, data)]
  }

  /** One name per ended hash, except that a repeated name is counted once. */
  lemma {:induction false} NamesCount(algorithms: seq<string>, ended: seq<nat>)
    requires forall j :: 0 <= j < |ended| ==> ended[j] < |algorithms|
    ensures |Names(algorithms, ended)| <= |ended|
    ensures |Names(algorithms, ended)| == |ended| <==> DistinctNames(algorithms, ended)
    decreases |ended|
  {
    if |ended| > 0 {
      var n := |ended| - 1;
      var prefix := ended[..n];
      assert forall j :: 0 <= j < n ==> prefix[j] == ended[j];
      NamesCount(algorithms, prefix);
      var a := algorithms[ended[n]];
      InNames(algorithms, prefix, a);
      if a in Names(algorithms, prefix) {
        var j :| 0 <= j < n && algorithms[prefix[j]] == a;
        assert algorithms[ended[j]] == algorithms[ended[n]];
      } else if DistinctNames(algorithms, prefix) {
        forall i, k | 0 <= i < k < |ended|
          ensures algorithms[ended[i]] != algorithms[ended[k]]
        {
          if k == n {
            assert algorithms[prefix[i]] != a;
          } else {
            assert algorithms[prefix[i]] != algorithms[prefix[k]];
          }
        }
      }
    }
  }

  /** The number of results stored, as a count of distinct names. */
  lemma ResultsCount(algorithms: seq<string>, ended: seq<nat>, data: seq<Byte>, digest: (string, seq<Byte>) -> string)
    requires forall j :: 0 <= j < |ended| ==> ended[j] < |algorithms|
    ensures |ResultsAfter(algorithms, ended, data, digest)| <= |ended|
    ensures |ResultsAfter(algorithms, ended, data, digest)| == |ended| <==> DistinctNames(algorithms, ended)
  {
    var r := ResultsAfter(algorithms, ended, data, digest);
    NamesCount(algorithms, ended);
    assert |r| == |r.Keys|;
  }

  /** Every `result` event emitted while the hashes in `ended` stored their digests, in order. */
  function Emissions(algorithms: seq<string>, ended: seq<nat>, data: seq<Byte>, digest: (string, seq<Byte>) -> string): (r: seq<map<string, string>>)
    requires forall j :: 0 <= j < |ended| ==> ended[j] < |algorithms|
    ensures |r| <= |ended|
    decreases |ended|
  {
    if |ended| == 0 then []
    else
      var n := |ended| - 1;
      assert forall j :: 0 <= j < n ==> ended[..n][j] == ended[j];
      var results := ResultsAfter(algorithms, ended, data, digest);
      Emissions(algorithms, ended[..n], data, digest) + (if |results| == |algorithms| then [results] else [])
  }

  /** The events emitted up to the last ended hash, then the one its digest may trigger. */
  lemma EmissionsLast(algorithms: seq<string>, ended: seq<nat>, n: nat, data: seq<Byte>, digest: (string, seq<Byte>) -> string)
    requires forall j :: 0 <= j < |ended| ==> ended[j] < |algorithms|
    requires n + 1 == |ended|
    ensures forall j :: 0 <= j < n ==> ended[..n][j] < |algorithms|
    ensures var results := ResultsAfter(algorithms, ended, data, digest);
            Emissions(algorithms, ended, data, digest)
            == Emissions(algorithms, ended[..n], data, digest) + (if |results| == |algorithms| then [results] else [])
  {
  }

  /** While fewer hashes than algorithms have ended, nothing is emitted. */
  lemma {:induction false} NoEarlyEmission(algorithms: seq<string>, ended: seq<nat>, data: seq<Byte>, digest: (string, seq<Byte>) -> string)
    requires forall j :: 0 <= j < |ended| ==> ended[j] < |algorithms|
    requires |ended| < |algorithms|
    ensures Emissions(algorithms, ended, data, digest) == []
    decreases |ended|
  {
    if |ended| > 0 {
      EmissionsLast(algorithms, ended, |ended| - 1, data, digest);
      NoEarlyEmission(algorithms, ended[..|ended| - 1], data, digest);
      ResultsCount(algorithms, ended, data, digest);
    }
  }

  /** Each hash ends exactly once: `order` lists the indices 0 .. n-1 in the order their hashes ended. */
  predicate EndingOrder(order: seq<nat>, n: nat) {
    && |order| == n
    && (forall j :: 0 <= j < n ==> order[j] < n)
    && (forall i :: 0 <= i < n ==> i in order)
    && (forall p, q :: 0 <= p < q < n ==> order[p] != order[q])
  }

  /** The results object a stream with `algorithms` gathers: each name mapped to its digest of `data`. */
  function AllDigests(algorithms: seq<string>, data: seq<Byte>, digest: (string, seq<Byte>) -> string): (m: map<string, string>)
    ensures forall a :: a in m <==> a in algorithms
    ensures forall a :: a in m ==> m[a] == digest(a, data)
  {
    map a | a in algorithms :: digest(a, data)
  }

  lemma EndingOrderNames(algorithms: seq<string>, order: seq<nat>)
    requires EndingOrder(order, |algorithms|)
    ensures DistinctNames(algorithms, order) <==> Distinct(algorithms)
  {
    if DistinctNames(algorithms, order) {
      forall i, j | 0 <= i < j < |algorithms|
        ensures algorithms[i] != algorithms[j]
      {
        assert i in order && j in order;
        var p :| 0 <= p < |order| && order[p] == i;
        var q :| 0 <= q < |order| && order[q] == j;
        if p < q {
          assert algorithms[order[p]] != algorithms[order[q]];
        } else {
          assert algorithms[order[q]] != algorithms[order[p]];
        }
      }
    }
  }

  lemma AllEndedResults(algorithms: seq<string>, order: seq<nat>, data: seq<Byte>, digest: (string, seq<Byte>) -> string)
    requires EndingOrder(order, |algorithms|)
    ensures ResultsAfter(algorithms, order, data, digest) == AllDigests(algorithms, data, digest)
  {
    var r := ResultsAfter(algorithms, order, data, digest);
    var m := AllDigests(algorithms, data, digest);
    forall a | a in algorithms
      ensures a in r
    {
      var i :| 0 <= i < |algorithms| && algorithms[i] == a;
      assert i in order;
      var p :| 0 <= p < |order| && order[p] == i;
      assert algorithms[order[p]] == a;
      InNames(algorithms, order, a);
    }
    forall a | a in r
      ensures a in algorithms
    {
      InNames(algorithms, order, a);
      var j :| 0 <= j < |order| && algorithms[order[j]] == a;
      assert order[j] < |algorithms|;
    }
    assert r.Keys == m.Keys;
  }

  /** Once every hash has ended, exactly one `result` was emitted when the names are distinct, none otherwise. */
  lemma EmissionsOnceEnded(algorithms: seq<string>, order: seq<nat>, data: seq<Byte>, digest: (string, seq<Byte>) -> string)
    requires |algorithms| > 0 && EndingOrder(order, |algorithms|)
    ensures Distinct(algorithms) ==> Emissions(algorithms, order, data, digest) == [AllDigests(algorithms, data, digest)]
    ensures !Distinct(algorithms) ==> Emissions(algorithms, order, data, digest) == []
  {
    EmissionsLast(algorithms, order, |order| - 1, data, digest);
    NoEarlyEmission(algorithms, order[..|order| - 1], data, digest);
    EndingOrderNames(algorithms, order);
    ResultsCount(algorithms, order, data, digest);
    AllEndedResults(algorithms, order, data, digest);
  }

  /** What `_flush` and the hashes' completions produce: the `result` events emitted, and whether `done` was called. */
  datatype FlushRun = FlushRun(emitted: seq<map<string, string>>, finished: bool)

  /**
   `_flush` of a stream that passed `data` through: with no hashes it emits
   the empty results at once; otherwise every hash ends (in `order`) and the
   stream finishes on the first `result`. Whatever the order, the results
   are emitted exactly once, holding every name's digest, when the names
   are distinct; with a repeated name the key count never reaches the list
   length, so nothing is emitted and the stream never finishes.
   */
  function Flush(c: Checksummer, data: seq<Byte>, digest: (string, seq<Byte>) -> string, order: seq<nat>): (r: FlushRun)
    requires |c.hashes| == |c.algorithms|
    requires EndingOrder(order, |c.hashes|)
    ensures Distinct(c.algorithms) ==> r.emitted == [AllDigests(c.algorithms, data, digest)]
    ensures !Distinct(c.algorithms) ==> r.emitted == []
    ensures r.finished <==> Distinct(c.algorithms)
  {
    if |c.hashes| == 0 then
      FlushRun([map[]], true)
    else
      EmissionsOnceEnded(c.algorithms, order, data, digest);
      var emitted := Emissions(c.algorithms, order, data, digest);
      FlushRun(emitted, |emitted| > 0)
  }

  /** The whole life of a stream fed `chunks`: what it passes on, and its flush. */
  datatype StreamRun = StreamRun(output: seq<seq<Byte>>, flush: FlushRun)

  function Process(c: Checksummer, chunks: seq<seq<Byte>>, digest: (string, seq<Byte>) -> string, order: seq<nat>): (r: StreamRun)
    requires |c.hashes| == |c.algorithms|
    requires EndingOrder(order, |c.hashes|)
    ensures r.output == chunks
    ensures Concat(r.output) == Concat(chunks)
    ensures r.flush == Flush(c, Concat(chunks), digest, order)
  {
    StreamRun(chunks, Flush(c, Concat(chunks), digest, order))
  }

  /** The emitted results do not depend on the order in which the hashes end. */
  lemma ResultIndependentOfOrder(c: Checksummer, data: seq<Byte>, digest: (string, seq<Byte>) -> string, order1: seq<nat>, order2: seq<nat>)
    requires |c.hashes| == |c.algorithms|
    requires EndingOrder(order1, |c.hashes|) && EndingOrder(order2, |c.hashes|)
    ensures Flush(c, data, digest, order1) == Flush(c, data, digest, order2)
  {
  }
}
