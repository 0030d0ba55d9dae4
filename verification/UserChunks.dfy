/** Splitting a user update into node commands that respect a count limit and a byte limit. */
module UserChunks {

  /** A serialized user, of which only its compact JSON matters here; JSON is escaped to ASCII, so characters
      are bytes. */
  datatype UserDict = UserDict(email: string, json: string)

  datatype NatsSettings = NatsSettings(maxPayloadBytes: int, batchSize: int)

  type Chunk = seq<UserDict>

  /** The elements and the commas between them. */
  function Elements(users: Chunk): string {
    if users == [] then ""
    else
      var last := |users| - 1;
      Elements(users[..last]) + (if last > 0 then "," else "") + users[last].json
  }

  /** `encode_node_command("update_users", {"users": users})`. */
  function EncodeNodeCommand(users: Chunk): string {
    "{\"action\":\"update_users\",\"payload\":{\"users\":[" + Elements(users) + "]}}"
  }

  /** What a node command may carry: a single user, or at most a batch within the byte limit, which is never
      below 1024. */
  predicate Fits(c: NatsSettings, chunk: Chunk) {
    || |chunk| == 1
    || (&& 1 < |chunk| <= c.batchSize
        && (|EncodeNodeCommand(chunk)| <= c.maxPayloadBytes || |EncodeNodeCommand(chunk)| <= 1024))
  }

  function Flatten(chunks: seq<Chunk>): seq<UserDict> {
    if chunks == [] then [] else chunks[0] + Flatten(chunks[1..])
  }

  ghost predicate AllFit(c: NatsSettings, chunks: seq<Chunk>) {
    forall chunk <- chunks :: Fits(c, chunk)
  }

  /** A split of `users` into allowed commands that keeps their order. */
  ghost predicate IsSplit(c: NatsSettings, users: seq<UserDict>, chunks: seq<Chunk>) {
    Flatten(chunks) == users && AllFit(c, chunks)
  }

  /** No chunk could have taken the first user of the next one. */
  ghost predicate Greedy(c: NatsSettings, chunks: seq<Chunk>) {
    forall i, j :: 0 <= i && i + 1 == j < |chunks| ==> Full(c, chunks[i], chunks[j])
  }

  predicate Full(c: NatsSettings, chunk: Chunk, next: Chunk) {
    next != [] && !Fits(c, chunk + [next[0]])
  }

  lemma {:induction false} FlattenSnoc(chunks: seq<Chunk>, chunk: Chunk)
    ensures Flatten(chunks + [chunk]) == Flatten(chunks) + chunk
  {
    if chunks == [] {
      assert ([] + [chunk])[1..] == [];
    } else {
      FlattenSnoc(chunks[1..], chunk);
      assert (chunks + [chunk])[1..] == chunks[1..] + [chunk];
    }
  }

  lemma {:induction false} ElementsConcat(a: Chunk, b: Chunk)
    ensures Elements(a + b) == Elements(a) + (if a != [] && b != [] then "," else "") + Elements(b)
  {
    if b == [] {
      assert a + b == a;
    } else {
      ElementsConcat(a, b[..|b| - 1]);
      assert (a + b)[..|a + b| - 1] == a + b[..|b| - 1];
    }
  }

  /** A stretch of an allowed command is allowed. */
  lemma StretchFits(c: NatsSettings, a: Chunk, b: Chunk, d: Chunk)
    requires Fits(c, a + b + d) && b != []
    ensures Fits(c, b)
  {
    ElementsConcat(a, b);
    ElementsConcat(a + b, d);
  }

  lemma {:induction false} FlattenNonempty(c: NatsSettings, chunks: seq<Chunk>)
    requires AllFit(c, chunks) && chunks != []
    ensures Flatten(chunks) != []
  {
    assert Fits(c, chunks[0]);
  }

  /** Two ways to cut the same list, by where the first piece of one ends. */
  lemma CutsCompare<T>(ahead: seq<T>, greedy: seq<T>, first: seq<T>, rest: seq<T>)
    requires first + rest == ahead + greedy
    ensures |first| <= |ahead| ==> rest == ahead[|first|..] + greedy
    ensures |first| > |ahead| ==>
              var n := |first| - |ahead|;
              n <= |greedy| && first == ahead + greedy[..n] && rest == greedy[n..]
  {
    var all := first + rest;
    assert rest == all[|first|..] && first == all[..|first|];
    if |first| <= |ahead| {
      assert all[|first|..] == ahead[|first|..] + greedy;
    } else {
      assert all[..|first|] == ahead + greedy[..|first| - |ahead|];
      assert all[|first|..] == greedy[|first| - |ahead|..];
    }
  }

  /** The greedy split stays ahead: if it has no more left to cover than another split has, then it
      needs no more commands for it. */
  lemma {:induction false} GreedyStaysAhead(c: NatsSettings, greedy: seq<Chunk>, other: seq<Chunk>,
                                            ahead: seq<UserDict>)
    requires AllFit(c, greedy) && Greedy(c, greedy) && AllFit(c, other)
    requires Flatten(other) == ahead + Flatten(greedy)
    ensures |greedy| <= |other|
    decreases |other|
  {
    if greedy != [] {
      FlattenNonempty(c, greedy);
      var first, rest := other[0], other[1..];
      var flat := Flatten(greedy);
      assert Fits(c, first);
      CutsCompare(ahead, flat, first, Flatten(rest));
      if |first| <= |ahead| {
        GreedyStaysAhead(c, greedy, rest, ahead[|first|..]);
      } else {
        var n := |first| - |ahead|;
        assert first == ahead + flat[..n] + [];
        StretchFits(c, ahead, flat[..n], []);
        GreedyTakesMost(c, greedy, flat[..n]);
        assert flat[n..] == greedy[0][n..] + Flatten(greedy[1..]);
        GreedyTail(c, greedy);
        GreedyStaysAhead(c, greedy[1..], rest, greedy[0][n..]);
      }
    }
  }

  lemma GreedyTail(c: NatsSettings, greedy: seq<Chunk>)
    requires AllFit(c, greedy) && Greedy(c, greedy) && greedy != []
    ensures AllFit(c, greedy[1..]) && Greedy(c, greedy[1..])
  {
    var rest := greedy[1..];
    forall i, j | 0 <= i && i + 1 == j < |rest| ensures Full(c, rest[i], rest[j]) {
      assert Full(c, greedy[i + 1], greedy[j + 1]);
    }
  }

  lemma FlattenStartsWithTwo(chunks: seq<Chunk>)
    requires |chunks| >= 2 && chunks[1] != []
    ensures var more := chunks[0] + [chunks[1][0]]; |more| <= |Flatten(chunks)| && Flatten(chunks)[..|more|] == more
  {
    assert chunks[1..][0] == chunks[1];
    assert Flatten(chunks) == chunks[0] + (chunks[1] + Flatten(chunks[1..][1..]));
  }

  /** No allowed command that starts where a greedy one does is longer. */
  lemma GreedyTakesMost(c: NatsSettings, greedy: seq<Chunk>, part: Chunk)
    requires AllFit(c, greedy) && Greedy(c, greedy) && greedy != []
    requires |part| <= |Flatten(greedy)| && part == Flatten(greedy)[..|part|] && Fits(c, part)
    ensures |part| <= |greedy[0]|
  {
    var g := greedy[0];
    if |greedy| == 1 {
      assert greedy[1..] == [];
    } else if |part| > |g| {
      assert Full(c, greedy[0], greedy[1]);
      var more := g + [greedy[1][0]];
      FlattenStartsWithTwo(greedy);
      LongerDoesNotFit(c, more, part);
    }
  }

  lemma LongerDoesNotFit(c: NatsSettings, more: Chunk, part: Chunk)
    requires more != [] && |more| <= |part| && part[..|more|] == more && Fits(c, part)
    ensures Fits(c, more)
  {
    assert part == [] + more + part[|more|..];
    StretchFits(c, [], more, part[|more|..]);
  }

  /** No allowed split of the users takes fewer commands than a greedy one. */
  lemma GreedyIsOptimal(c: NatsSettings, users: seq<UserDict>, greedy: seq<Chunk>, other: seq<Chunk>)
    requires IsSplit(c, users, greedy) && Greedy(c, greedy) && IsSplit(c, users, other)
    ensures |greedy| <= |other|
  {
    assert users == [] + users;
    GreedyStaysAhead(c, greedy, other, []);
  }

  /** The loop's state after some users: finished chunks, and the chunk being filled. */
  ghost predicate Progress(c: NatsSettings, seen: seq<UserDict>, chunks: seq<Chunk>, current: Chunk) {
    && Flatten(chunks) + current == seen
    && AllFit(c, chunks) && Fits(c, current)
    && Greedy(c, chunks)
    && (chunks != [] ==> Full(c, chunks[|chunks| - 1], current))
  }

  lemma StepKeepsProgress(c: NatsSettings, seen: seq<UserDict>, chunks: seq<Chunk>, current: Chunk, user: UserDict)
    requires Progress(c, seen, chunks, current)
    ensures Fits(c, current + [user]) ==> Progress(c, seen + [user], chunks, current + [user])
    ensures !Fits(c, current + [user]) ==> Progress(c, seen + [user], chunks + [current], [user])
  {
    assert Flatten(chunks) + (current + [user]) == seen + [user];
    FlattenSnoc(chunks, current);
  }

  lemma FinishedProgress(c: NatsSettings, seen: seq<UserDict>, chunks: seq<Chunk>, current: Chunk)
    requires Progress(c, seen, chunks, current)
    ensures IsSplit(c, seen, chunks + [current]) && Greedy(c, chunks + [current])
  {
    FlattenSnoc(chunks, current);
  }

  /** `_chunk_serialized_users_for_nats`: the users in order, in as few allowed commands as possible. */
  method ChunkSerializedUsers(c: NatsSettings, users: seq<UserDict>) returns (chunks: seq<Chunk>)
    ensures IsSplit(c, users, chunks)
    ensures forall other: seq<Chunk> :: IsSplit(c, users, other) ==> |chunks| <= |other|
  {
    if users == [] { return []; }
    var maxPayloadBytes := if c.maxPayloadBytes < 1024 then 1024 else c.maxPayloadBytes;
    var maxBatchSize := if c.batchSize < 1 then 1 else c.batchSize;
    chunks := [];
    var current: Chunk := [];
    var i := 0;
    while i < |users|
      invariant i <= |users|
      invariant if i == 0 then chunks == [] && current == [] else Progress(c, users[..i], chunks, current)
    {
      var user := users[i];
      assert users[..i + 1] == users[..i] + [user];
      if current != [] { StepKeepsProgress(c, users[..i], chunks, current, user); }
      var candidate := current + [user];
      if current != [] && (|candidate| > maxBatchSize || |EncodeNodeCommand(candidate)| > maxPayloadBytes) {
        chunks := chunks + [current];
        current := [user];
      } else {
        current := candidate;
      }
      i := i + 1;
    }
    FinishedProgress(c, users[..i], chunks, current);
    chunks := chunks + [current];
    assert users[..i] == users;
    forall other: seq<Chunk> | IsSplit(c, users, other) ensures |chunks| <= |other| {
      GreedyIsOptimal(c, users, chunks, other);
    }
  }
}
