/** Face matching and enrollment over a registry of embeddings: arg-max selection with
    a threshold and a first-wins tie-break, the enrollment gates (sample count,
    pairwise quality), replacement of the registry entry, and the filter applied when
    the registry is loaded. The embedding model and the dot-product/norm arithmetic
    stay abstract: a similarity function is a parameter, and only the zero-norm rule is
    fixed here. */
module FaceRecognizer {
  import opened Types
  import opened Aggregates

  const DefaultThreshold: real := 0.70
  const MinSamples: nat := 3
  const QualityThreshold: real := 0.70

  type Embedding = seq<real>

  /** One registry entry: `embeddings_cache[employee_id] = embedding`. */
  datatype Entry = Entry(employeeId: string, embedding: Embedding)

  // ---------------------------------------------------------------------
  // The registry: a dictionary in insertion order
  // ---------------------------------------------------------------------

  /** Each id appears at most once, as in a dictionary. */
  predicate Valid(registry: seq<Entry>) {
    forall i, j :: 0 <= i < j < |registry| ==> registry[i].employeeId != registry[j].employeeId
  }

  function Lookup(registry: seq<Entry>, id: string): (r: Option<Embedding>)
    ensures r.Some? <==> exists i :: 0 <= i < |registry| && registry[i].employeeId == id
  {
    if registry == [] then None
    else if registry[0].employeeId == id then Some(registry[0].embedding)
    else
      var r := Lookup(registry[1..], id);
      assert forall i :: 0 <= i < |registry| - 1 ==> registry[1..][i] == registry[i + 1];
      r
  }

  /** `cache[id] = embedding`: an existing id keeps its position and takes the new
      embedding; a new id goes last. */
  function Put(registry: seq<Entry>, id: string, embedding: Embedding): (r: seq<Entry>)
    requires Valid(registry)
    ensures Valid(r)
    ensures Lookup(r, id) == Some(embedding)
    ensures forall k :: k != id ==> Lookup(r, k) == Lookup(registry, k)
    ensures |r| == |registry| || |r| == |registry| + 1
    ensures forall i :: 0 <= i < |registry| ==> r[i].employeeId == registry[i].employeeId
  {
    if registry == [] then [Entry(id, embedding)]
    else if registry[0].employeeId == id then
      PutHead(registry, id, embedding);
      [Entry(id, embedding)] + registry[1..]
    else
      var rest := Put(registry[1..], id, embedding);
      PutTail(registry, id, embedding, rest);
      [registry[0]] + rest
  }

  lemma PutHead(registry: seq<Entry>, id: string, embedding: Embedding)
    requires Valid(registry) && registry != [] && registry[0].employeeId == id
    ensures var r := [Entry(id, embedding)] + registry[1..];
      && Valid(r)
      && Lookup(r, id) == Some(embedding)
      && forall k :: k != id ==> Lookup(r, k) == Lookup(registry, k)
  {
    var r := [Entry(id, embedding)] + registry[1..];
    assert r[1..] == registry[1..];
  }

  lemma PutTail(registry: seq<Entry>, id: string, embedding: Embedding, rest: seq<Entry>)
    requires Valid(registry) && registry != [] && registry[0].employeeId != id
    requires Valid(rest) && Lookup(rest, id) == Some(embedding)
    requires forall k :: k != id ==> Lookup(rest, k) == Lookup(registry[1..], k)
    requires |rest| == |registry| - 1 || |rest| == |registry|
    requires forall i :: 0 <= i < |registry| - 1 ==> rest[i].employeeId == registry[1..][i].employeeId
    ensures var r := [registry[0]] + rest;
      && Valid(r)
      && Lookup(r, id) == Some(embedding)
      && forall k :: k != id ==> Lookup(r, k) == Lookup(registry, k)
  {
    var r := [registry[0]] + rest;
    assert r[1..] == rest;
    forall j | 0 < j < |r| ensures r[0].employeeId != r[j].employeeId {
      var k := r[j].employeeId;
      if k != id {
        assert Lookup(rest, k).Some? by {
          assert rest[j - 1].employeeId == k;
        }
        assert Lookup(registry[1..], k).Some?;
        var i :| 0 <= i < |registry| - 1 && registry[1..][i].employeeId == k;
        assert registry[i + 1].employeeId == k;
      }
    }
  }

  // ---------------------------------------------------------------------
  // Similarity
  // ---------------------------------------------------------------------

  /** A vector of norm 0: every component is 0 (an empty vector included). */
  predicate ZeroNorm(v: Embedding) {
    forall i :: 0 <= i < |v| ==> v[i] == 0.0
  }

  /** `_cosine_similarity`: 0.0 when either vector has norm 0, otherwise the ratio
      `dot / (norm1 * norm2)` that `ratio` stands for. */
  function Cosine(ratio: (Embedding, Embedding) -> real, a: Embedding, b: Embedding): (s: real)
    ensures ZeroNorm(a) || ZeroNorm(b) ==> s == 0.0
    ensures !ZeroNorm(a) && !ZeroNorm(b) ==> s == ratio(a, b)
  {
    if ZeroNorm(a) || ZeroNorm(b) then 0.0 else ratio(a, b)
  }

  // ---------------------------------------------------------------------
  // Recognition
  // ---------------------------------------------------------------------

  /** The similarity of the query to the `i`-th registry entry. */
  function Score(ratio: (Embedding, Embedding) -> real, query: Embedding, registry: seq<Entry>, i: int): real
    requires 0 <= i < |registry|
  {
    Cosine(ratio, query, registry[i].embedding)
  }

  /** `recognize_face` once the query embedding has been produced (`None` when the
      embedding model failed): the best score, starting from 0.0 and replaced only by a
      strictly greater one, and the id that first reached it when it meets the
      threshold. */
  method RecognizeFace(
    ratio: (Embedding, Embedding) -> real, registry: seq<Entry>, query: Option<Embedding>, threshold: real)
    returns (id: Option<string>, similarity: real)
    ensures query.None? || registry == [] ==> id == None && similarity == 0.0
    ensures similarity >= 0.0
    ensures query.Some? ==> forall i :: 0 <= i < |registry| ==> Score(ratio, query.value, registry, i) <= similarity
    ensures query.Some? && similarity > 0.0 ==>
      exists i :: 0 <= i < |registry| && Score(ratio, query.value, registry, i) == similarity
    ensures id.Some? <==> query.Some? && registry != [] && similarity > 0.0 && similarity >= threshold
    ensures id.Some? ==> exists i :: (
      && 0 <= i < |registry| && registry[i].employeeId == id.value
      && Score(ratio, query.value, registry, i) == similarity
      && forall j :: 0 <= j < i ==> Score(ratio, query.value, registry, j) < similarity)
  {
    if query.None? || |registry| == 0 {
      return None, 0.0;
    }
    var q := query.value;
    var best: Option<nat> := None;
    similarity := 0.0;
    for k := 0 to |registry|
      invariant similarity >= 0.0
      invariant forall i :: 0 <= i < k ==> Score(ratio, q, registry, i) <= similarity
      invariant best.None? ==> similarity == 0.0
      invariant best.Some? ==>
        && best.value < k
        && similarity > 0.0
        && Score(ratio, q, registry, best.value) == similarity
        && forall j :: 0 <= j < best.value ==> Score(ratio, q, registry, j) < similarity
    {
      var s := Score(ratio, q, registry, k);
      if s > similarity {
        similarity := s;
        best := Some(k);
      }
    }
    if similarity >= threshold && best.Some? {
      id := Some(registry[best.value].employeeId);
    } else {
      id := None;
    }
  }

  // ---------------------------------------------------------------------
  // Enrollment
  // ---------------------------------------------------------------------

  /** The embeddings that were produced, in sample order. */
  function Produced(generated: seq<Option<Embedding>>): (r: seq<Embedding>)
    ensures |r| <= |generated|
    ensures forall e :: e in r ==> Some(e) in generated
    ensures forall i :: 0 <= i < |generated| && generated[i].Some? ==> generated[i].value in r
  {
    if generated == [] then []
    else
      var init := generated[..|generated| - 1];
      var last := generated[|generated| - 1];
      assert generated == init + [last];
      if last.Some? then Produced(init) + [last.value] else Produced(init)
  }

  /** Each embedding is kept as many times as it was produced. */
  lemma {:induction false} ProducedMultiplicity(generated: seq<Option<Embedding>>, e: Embedding)
    ensures multiset(Produced(generated))[e] == multiset(generated)[Some(e)]
  {
    if generated != [] {
      var init, last := generated[..|generated| - 1], generated[|generated| - 1];
      assert generated == init + [last];
      ProducedMultiplicity(init, e);
    }
  }

  /** The embeddings stay in sample order: a concatenation yields each part's in turn. */
  lemma {:induction false} ProducedAppend(a: seq<Option<Embedding>>, b: seq<Option<Embedding>>)
    ensures Produced(a + b) == Produced(a) + Produced(b)
  {
    if b != [] {
      var init, last := b[..|b| - 1], b[|b| - 1];
      assert (a + b)[..|a + b| - 1] == a + init;
      assert (a + b)[|a + b| - 1] == last;
      ProducedAppend(a, init);
    } else {
      assert a + b == a;
    }
  }

  /** Every embedding has the dimension of the first: `np.mean(..., axis=0)` accepts them. */
  predicate SameDimension(embs: seq<Embedding>) {
    forall i :: 0 <= i < |embs| ==> |embs[i]| == |embs[0]|
  }

  /** Component `k` of every embedding. */
  function Column(embs: seq<Embedding>, k: nat): (c: seq<real>)
    requires forall i :: 0 <= i < |embs| ==> k < |embs[i]|
    ensures |c| == |embs|
    ensures forall i :: 0 <= i < |embs| ==> c[i] == embs[i][k]
  {
    seq(|embs|, i requires 0 <= i < |embs| => embs[i][k])
  }

  /** `np.mean(embeddings, axis=0)`: the component-wise mean. */
  function MeanVector(embs: seq<Embedding>): (avg: Embedding)
    requires |embs| > 0 && SameDimension(embs)
    ensures |avg| == |embs[0]|
    ensures forall k :: 0 <= k < |avg| ==> avg[k] == Mean(Column(embs, k))
  {
    seq(|embs[0]|, k requires 0 <= k < |embs[0]| => Mean(Column(embs, k)))
  }

  /** The similarities of embedding `i` to each later one, in order. */
  function RowSims(ratio: (Embedding, Embedding) -> real, embs: seq<Embedding>, i: nat): (r: seq<real>)
    requires i < |embs|
    ensures |r| == |embs| - i - 1
    ensures forall j :: i < j < |embs| ==> r[j - i - 1] == Cosine(ratio, embs[i], embs[j])
  {
    seq(|embs| - i - 1, k requires 0 <= k < |embs| - i - 1 => Cosine(ratio, embs[i], embs[i + 1 + k]))
  }

  /** The similarities of every pair `i < j` with `i >= from`, `i` outer and `j` inner. */
  function PairSims(ratio: (Embedding, Embedding) -> real, embs: seq<Embedding>, from: nat): (r: seq<real>)
    decreases |embs| - from
  {
    if from >= |embs| then [] else RowSims(ratio, embs, from) + PairSims(ratio, embs, from + 1)
  }

  /** Every pair `i < j` is compared exactly once: `n(n-1)/2` similarities. */
  lemma {:induction false} PairCount(ratio: (Embedding, Embedding) -> real, embs: seq<Embedding>, from: nat)
    requires from <= |embs|
    ensures 2 * |PairSims(ratio, embs, from)| == (|embs| - from) * (|embs| - from - 1)
    decreases |embs| - from
  {
    if from < |embs| {
      PairCount(ratio, embs, from + 1);
      var m := |embs| - from;
      assert (m - 1) * (m - 2) + 2 * (m - 1) == m * (m - 1);
    }
  }

  /** Each compared value is the similarity of some pair `i < j`. */
  lemma {:induction false} PairsArePairs(ratio: (Embedding, Embedding) -> real, embs: seq<Embedding>, from: nat)
    ensures forall x :: x in PairSims(ratio, embs, from) ==>
      exists i, j :: from <= i < j < |embs| && x == Cosine(ratio, embs[i], embs[j])
    decreases |embs| - from
  {
    if from < |embs| {
      PairsArePairs(ratio, embs, from + 1);
      var row := RowSims(ratio, embs, from);
      forall x | x in row ensures exists i, j :: from <= i < j < |embs| && x == Cosine(ratio, embs[i], embs[j]) {
        var k :| 0 <= k < |row| && row[k] == x;
        assert x == Cosine(ratio, embs[from], embs[from + 1 + k]);
      }
    }
  }

  /** `np.mean(similarities) if similarities else 0.0`. */
  function Quality(ratio: (Embedding, Embedding) -> real, embs: seq<Embedding>): real {
    var sims := PairSims(ratio, embs, 0);
    if sims == [] then 0.0 else Mean(sims)
  }

  /** The outcome of `enroll_employee`: the registry afterwards and the returned flag. */
  datatype Enrollment = Enrollment(registry: seq<Entry>, success: bool)

  /** `enroll_employee(id, samples)`, given what the embedding model produced for each
      sample (`None` for a failure). `jsonOk` says whether writing the embedding file
      succeeds, `samplesOk` whether saving the sample images does. `None` is the error
      `np.mean` raises when the embeddings differ in dimension. */
  function EnrollEmployee(
    ratio: (Embedding, Embedding) -> real, registry: seq<Entry>, id: string,
    generated: seq<Option<Embedding>>, jsonOk: bool, samplesOk: bool): (r: Option<Enrollment>)
    requires Valid(registry)
    ensures r.None? <==> |generated| >= MinSamples && |Produced(generated)| >= MinSamples && !SameDimension(Produced(generated))
    ensures r.Some? ==> Valid(r.value.registry)
    ensures r.Some? && !r.value.success && !jsonOk ==> r.value.registry == registry
    ensures r.Some? && r.value.success ==> jsonOk && samplesOk
    ensures r.Some? && (|generated| < MinSamples || |Produced(generated)| < MinSamples) ==>
      r.value == Enrollment(registry, false)
  {
    if |generated| < MinSamples then Some(Enrollment(registry, false))
    else
      var embs := Produced(generated);
      if |embs| < MinSamples then Some(Enrollment(registry, false))
      else if !SameDimension(embs) then None
      else
        var avg := MeanVector(embs);
        if Quality(ratio, embs) < QualityThreshold then Some(Enrollment(registry, false))
        else if !jsonOk then Some(Enrollment(registry, false))
        else Some(Enrollment(Put(registry, id, avg), samplesOk))
  }

  /** The enrollment gates: success exactly when there are at least 3 samples, at least
      3 embeddings of one dimension, a quality of at least 0.70 and both writes succeed.
      The registry is updated as soon as the embedding file is written, so a failed
      sample save returns false with the id already mapped to the mean embedding; before
      that point the registry is unchanged. Every other id keeps its entry. */
  lemma EnrollmentGates(
    ratio: (Embedding, Embedding) -> real, registry: seq<Entry>, id: string,
    generated: seq<Option<Embedding>>, jsonOk: bool, samplesOk: bool)
    requires Valid(registry)
    requires EnrollEmployee(ratio, registry, id, generated, jsonOk, samplesOk).Some?
    ensures var r := EnrollEmployee(ratio, registry, id, generated, jsonOk, samplesOk).value;
      var embs := Produced(generated);
      && (r.success <==>
            && |generated| >= MinSamples && |embs| >= MinSamples
            && Quality(ratio, embs) >= QualityThreshold && jsonOk && samplesOk)
      && (|embs| >= MinSamples && Quality(ratio, embs) < QualityThreshold ==> r.registry == registry)
      && (r.success ==> Lookup(r.registry, id) == Some(MeanVector(embs)))
      && (|generated| >= MinSamples && |embs| >= MinSamples && Quality(ratio, embs) >= QualityThreshold && jsonOk ==>
            Lookup(r.registry, id) == Some(MeanVector(embs)))
      && (!(|generated| >= MinSamples && |embs| >= MinSamples && Quality(ratio, embs) >= QualityThreshold && jsonOk) ==>
            r.registry == registry)
      && (forall k :: k != id ==> Lookup(r.registry, k) == Lookup(registry, k))
  {
  }

  /** The gate is about the average over all pairs: when every pair is at least 0.70
      alike the quality passes, and when no pair is it fails. */
  lemma QualityFromPairs(ratio: (Embedding, Embedding) -> real, embs: seq<Embedding>)
    requires |embs| >= MinSamples
    ensures (forall i, j :: 0 <= i < j < |embs| ==> Cosine(ratio, embs[i], embs[j]) >= QualityThreshold) ==>
              Quality(ratio, embs) >= QualityThreshold
    ensures (forall i, j :: 0 <= i < j < |embs| ==> Cosine(ratio, embs[i], embs[j]) < QualityThreshold) ==>
              Quality(ratio, embs) < QualityThreshold
  {
    var sims := PairSims(ratio, embs, 0);
    PairCount(ratio, embs, 0);
    PairsArePairs(ratio, embs, 0);
    assert |sims| > 0;
    if forall i, j :: 0 <= i < j < |embs| ==> Cosine(ratio, embs[i], embs[j]) >= QualityThreshold {
      forall k | 0 <= k < |sims| ensures QualityThreshold <= sims[k] {
        assert sims[k] in sims;
      }
      MeanAtLeast(sims, QualityThreshold);
    }
    if forall i, j :: 0 <= i < j < |embs| ==> Cosine(ratio, embs[i], embs[j]) < QualityThreshold {
      forall k | 0 <= k < |sims| ensures sims[k] < QualityThreshold {
        assert sims[k] in sims;
      }
      MeanBelow(sims, QualityThreshold);
    }
  }

  lemma MeanBelow(s: seq<real>, hi: real)
    requires |s| > 0
    requires forall i :: 0 <= i < |s| ==> s[i] < hi
    ensures Mean(s) < hi
  {
    var neg := seq(|s|, i requires 0 <= i < |s| => -s[i]);
    NegatedSum(s, neg);
    MeanAbove(neg, -hi);
  }

  lemma {:induction false} NegatedSum(s: seq<real>, neg: seq<real>)
    requires |neg| == |s| && forall i :: 0 <= i < |s| ==> neg[i] == -s[i]
    ensures SumReals(neg) == -SumReals(s)
  {
    if s != [] {
      NegatedSum(s[..|s| - 1], neg[..|neg| - 1]);
    }
  }

  /** Enrolling copies of one embedding registers that embedding itself. */
  lemma MeanOfCopies(embs: seq<Embedding>, e: Embedding)
    requires |embs| > 0 && forall i :: 0 <= i < |embs| ==> embs[i] == e
    ensures SameDimension(embs)
    ensures MeanVector(embs) == e
  {
    var avg := MeanVector(embs);
    forall k | 0 <= k < |e| ensures avg[k] == e[k] {
      SumRealsConstant(Column(embs, k), e[k]);
    }
  }

  // ---------------------------------------------------------------------
  // Loading
  // ---------------------------------------------------------------------

  /** One `*_embedding.json` file as read: `Unreadable` when opening or parsing it
      raised (the file is then skipped). */
  datatype EmbeddingFile = Unreadable | EmbeddingFile(employeeId: Option<string>, embedding: Embedding)

  /** Whether a file contributes an entry: a truthy id and a non-empty embedding. */
  predicate Kept(f: EmbeddingFile) {
    f.EmbeddingFile? && Truthy(f.employeeId) && |f.embedding| > 0
  }

  /** The embedding of the last kept file for `id`: a later file overwrites an earlier one. */
  function LastKept(files: seq<EmbeddingFile>, id: string): Option<Embedding> {
    if files == [] then None
    else
      var last := files[|files| - 1];
      if Kept(last) && last.employeeId.value == id then Some(last.embedding)
      else LastKept(files[..|files| - 1], id)
  }

  /** `_load_embeddings` over the files in the order they are listed. */
  function LoadEmbeddings(files: seq<EmbeddingFile>): (r: seq<Entry>)
    ensures Valid(r)
    ensures forall id :: Lookup(r, id) == LastKept(files, id)
    ensures forall i :: 0 <= i < |r| ==> r[i].employeeId != "" && |r[i].embedding| > 0
  {
    if files == [] then []
    else
      var init := LoadEmbeddings(files[..|files| - 1]);
      var last := files[|files| - 1];
      if Kept(last) then
        PutKeepsNonEmpty(init, last.employeeId.value, last.embedding);
        Put(init, last.employeeId.value, last.embedding)
      else init
  }

  lemma PutKeepsNonEmpty(registry: seq<Entry>, id: string, embedding: Embedding)
    requires Valid(registry)
    requires forall i :: 0 <= i < |registry| ==> registry[i].employeeId != "" && |registry[i].embedding| > 0
    requires id != "" && |embedding| > 0
    ensures forall i :: 0 <= i < |Put(registry, id, embedding)| ==>
      Put(registry, id, embedding)[i].employeeId != "" && |Put(registry, id, embedding)[i].embedding| > 0
  {
    var r := Put(registry, id, embedding);
    forall i | 0 <= i < |r| ensures r[i].employeeId != "" && |r[i].embedding| > 0 {
      var k := r[i].employeeId;
      assert Lookup(r, k).Some?;
      if k != id {
        assert Lookup(registry, k) == Lookup(r, k);
        UniqueLookup(r, i);
        var j :| 0 <= j < |registry| && registry[j].employeeId == k;
        UniqueLookup(registry, j);
      } else {
        UniqueLookup(r, i);
      }
    }
  }

  /** In a valid registry the entry found for an id is the one at that id's position. */
  lemma {:induction false} UniqueLookup(registry: seq<Entry>, i: nat)
    requires Valid(registry) && i < |registry|
    ensures Lookup(registry, registry[i].employeeId) == Some(registry[i].embedding)
  {
    if i > 0 {
      assert registry[0].employeeId != registry[i].employeeId;
      assert registry[1..][i - 1] == registry[i];
      UniqueLookup(registry[1..], i - 1);
    }
  }
}
