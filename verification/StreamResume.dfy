/** Reading a result stream across dropped connections
    (src/usagebassoon/backends/bigquery.py, `_read_stream_batches`). */
module StreamResume {
  type Row = string

  /** How a connection opened at some offset fares: it delivers chunks of at most
      the given sizes (0 is a response without a batch) and then drops, fails for
      good, or delivers the rest of the stream and ends normally. */
  datatype Ending = EndOfStream | Transient(affordable: bool) | Permanent
  datatype Connection = Connection(chunks: seq<nat>, ending: Ending)

  datatype Outcome = Complete | Failed | BudgetExhausted | StillRetrying

  function Concat(batches: seq<seq<Row>>): seq<Row> {
    if batches == [] then [] else Concat(batches[..|batches| - 1]) + batches[|batches| - 1]
  }

  /** The rows one read_rows response carries when `n` are offered at `offset`. */
  function Chunk(stream: seq<Row>, offset: nat, n: nat): seq<Row>
    requires offset <= |stream|
  {
    if offset + n <= |stream| then stream[offset..offset + n] else stream[offset..]
  }

  lemma ChunkExtendsPrefix(stream: seq<Row>, offset: nat, n: nat)
    requires offset <= |stream|
    ensures stream[..offset] + Chunk(stream, offset, n) == stream[..offset + |Chunk(stream, offset, n)|]
  {
  }

  function Offered(chunks: seq<nat>): nat {
    if chunks == [] then 0 else Offered(chunks[..|chunks| - 1]) + chunks[|chunks| - 1]
  }

  /** How far connection `c` gets in a stream of `size` rows when opened at `start`. */
  predicate Reaches(c: Connection, size: nat, start: nat, offset: nat) {
    if c.ending.EndOfStream? || start + Offered(c.chunks) >= size then offset == size
    else offset == start + Offered(c.chunks)
  }

  /** One connection: everything delivered is yielded, and `offset` counts it. */
  method Drain(stream: seq<Row>, connection: Connection, start: nat, before: seq<seq<Row>>)
    returns (batches: seq<seq<Row>>, offset: nat)
    requires start <= |stream| && Concat(before) == stream[..start]
    ensures start <= offset <= |stream| && Concat(batches) == stream[..offset]
    ensures before <= batches && forall i | |before| <= i < |batches| :: batches[i] != []
    ensures Reaches(connection, |stream|, start, offset)
  {
    batches, offset := before, start;
    var chunks := connection.chunks + if connection.ending.EndOfStream? then [|stream|] else [];
    for i := 0 to |chunks|
      invariant start <= offset <= |stream| && Concat(batches) == stream[..offset]
      invariant before <= batches && forall i | |before| <= i < |batches| :: batches[i] != []
      invariant offset == if start + Offered(chunks[..i]) >= |stream| then |stream| else start + Offered(chunks[..i])
    {
      var batch := Chunk(stream, offset, chunks[i]);
      assert chunks[..i + 1][..i] == chunks[..i];
      if batch == [] {
        continue;
      }
      ChunkExtendsPrefix(stream, offset, chunks[i]);
      offset := offset + |batch|;
      assert (batches + [batch])[..|batches|] == batches;
      batches := batches + [batch];
    }
    assert chunks[..|chunks|] == chunks;
    if connection.ending.EndOfStream? {
      assert chunks[..|connection.chunks|] == connection.chunks;
    }
  }

  /** Connection `i` asked for exactly the rows after the first `yielded[i]` batches. */
  ghost predicate Resumed(stream: seq<Row>, batches: seq<seq<Row>>, yielded: seq<nat>, requested: seq<nat>) {
    && |yielded| == |requested|
    && forall i | 0 <= i < |requested| ::
         yielded[i] <= |batches| && requested[i] <= |stream| && Concat(batches[..yielded[i]]) == stream[..requested[i]]
  }

  lemma ResumedPersists(stream: seq<Row>, before: seq<seq<Row>>, after: seq<seq<Row>>, yielded: seq<nat>, requested: seq<nat>)
    requires before <= after && Resumed(stream, before, yielded, requested)
    ensures Resumed(stream, after, yielded, requested)
  {
    forall i | 0 <= i < |requested| ensures Concat(after[..yielded[i]]) == stream[..requested[i]] {
      assert after[..yielded[i]] == before[..yielded[i]];
    }
  }

  lemma ResumedExtends(stream: seq<Row>, batches: seq<seq<Row>>, yielded: seq<nat>, requested: seq<nat>, offset: nat)
    requires Resumed(stream, batches, yielded, requested)
    requires offset <= |stream| && Concat(batches) == stream[..offset]
    ensures Resumed(stream, batches, yielded + [|batches|], requested + [offset])
  {
    assert batches[..|batches|] == batches;
  }

  /** Connection `i`, opened at `requested[i]`, got to `reached[i]`, where the next one
      is opened. */
  ghost predicate Linked(script: seq<Connection>, size: nat, requested: seq<nat>, reached: seq<nat>) {
    && |requested| == |reached| <= |script|
    && (forall i | 0 <= i < |requested| :: Reaches(script[i], size, requested[i], reached[i]))
    && (requested != [] ==> requested == [0] + reached[..|reached| - 1])
  }

  lemma LinkedExtends(script: seq<Connection>, size: nat, requested: seq<nat>, reached: seq<nat>, start: nat, offset: nat)
    requires Linked(script, size, requested, reached) && |requested| < |script|
    requires start == if reached == [] then 0 else reached[|reached| - 1]
    requires Reaches(script[|requested|], size, start, offset)
    ensures Linked(script, size, requested + [start], reached + [offset])
  {
    var after := reached + [offset];
    assert after[..|after| - 1] == reached;
    if reached != [] {
      assert reached == reached[..|reached| - 1] + [start];
    }
  }

  /** What holds whenever the next connection is to be opened, at `offset`. */
  ghost predicate Progress(
    stream: seq<Row>, script: seq<Connection>, batches: seq<seq<Row>>, yielded: seq<nat>, requested: seq<nat>,
    reached: seq<nat>, offset: nat)
  {
    && offset <= |stream| && Concat(batches) == stream[..offset]
    && Resumed(stream, batches, yielded, requested)
    && Linked(script, |stream|, requested, reached)
    && offset == (if reached == [] then 0 else reached[|reached| - 1])
  }

  lemma ConnectionProgresses(
    stream: seq<Row>, script: seq<Connection>, before: seq<seq<Row>>, batches: seq<seq<Row>>, yielded: seq<nat>,
    requested: seq<nat>, reached: seq<nat>, start: nat, offset: nat)
    requires Progress(stream, script, before, yielded, requested, reached, start)
    requires |requested| < |script| && Reaches(script[|requested|], |stream|, start, offset)
    requires before <= batches && offset <= |stream| && Concat(batches) == stream[..offset]
    ensures Progress(stream, script, batches, yielded + [|before|], requested + [start], reached + [offset], offset)
  {
    ResumedExtends(stream, before, yielded, requested, start);
    ResumedPersists(stream, before, batches, yielded + [|before|], requested + [start]);
    LinkedExtends(script, |stream|, requested, reached, start, offset);
  }

  /** For any pattern of failures: every connection asks for the rows after those
      yielded so far, what was yielded is a prefix of the stream, and a normal
      return has yielded the whole stream once.  A connection is followed by another
      exactly when it drops transiently and the retry is affordable. */
  method ReadStreamBatches(stream: seq<Row>, script: seq<Connection>)
    returns (batches: seq<seq<Row>>, requested: seq<nat>, outcome: Outcome, ghost yielded: seq<nat>, ghost reached: seq<nat>)
    ensures Concat(batches) <= stream
    ensures outcome.Complete? ==> Concat(batches) == stream
    ensures Resumed(stream, batches, yielded, requested)
    ensures Linked(script, |stream|, requested, reached) && (requested == [] <==> script == [])
    ensures requested != [] ==> |Concat(batches)| == reached[|reached| - 1]
    ensures forall i | 0 <= i < |requested| - 1 :: script[i].ending == Transient(true)
    ensures requested != [] ==>
      match script[|requested| - 1].ending
      case EndOfStream => outcome == Complete
      case Permanent => outcome == Failed
      case Transient(false) => outcome == BudgetExhausted
      case Transient(true) => outcome == StillRetrying && |requested| == |script|
  {
    batches, requested, yielded, outcome, reached := [], [], [], StillRetrying, [];
    var offset := 0;
    for i := 0 to |script|
      invariant |requested| == i && Progress(stream, script, batches, yielded, requested, reached, offset)
      invariant forall k | 0 <= k < i :: script[k].ending == Transient(true)
      invariant outcome == StillRetrying
    {
      var more, next := Drain(stream, script[i], offset, batches);
      ConnectionProgresses(stream, script, batches, more, yielded, requested, reached, offset, next);
      requested, yielded, reached := requested + [offset], yielded + [|batches|], reached + [next];
      batches, offset := more, next;
      outcome := match script[i].ending
        case EndOfStream => Complete
        case Permanent => Failed
        case Transient(affordable) => if affordable then StillRetrying else BudgetExhausted;
      if !outcome.StillRetrying? {
        return;
      }
    }
  }
}
