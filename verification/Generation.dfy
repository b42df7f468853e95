/** Token generation on the inference worker: a prompt evaluated in bounded batches, then one token at a time. */
module Generation {
  import opened Wrappers

  type Token = int

  /** One entry of a batch handed to the model. */
  datatype Slot = Slot(token: Token, pos: nat, logits: bool)

  type Batch = seq<Slot>

  /** What travels on a token stream. */
  datatype Item = Text(text: string) | Finished | Failed

  /** GaveUp: a text could not be sent at once, so the loop returns as if all were well. */
  datatype Outcome = Done | GaveUp | Error

  /** How many items the token channel holds. */
  const CAPACITY: nat := 64

  /** What the model library and the client do at each step. */
  datatype Env = Env(
    tokens: Option<seq<Token>>,        // tokenizing the prompt
    contextCreated: bool,
    decodes: nat -> bool,              // by number of batches decoded before
    sample: nat -> Token,              // by number of tokens sampled before
    isEnd: Token -> bool,
    piece: nat -> Option<string>,      // the text of the i-th sampled token
    connected: nat -> bool,            // by number of items sent before: the receiver is still there
    taken: nat -> nat)                 // likewise: how many of them it has taken out of the channel

  predicate HasRoom(env: Env, sent: nat) {
    sent < env.taken(sent) + CAPACITY
  }

  /** A text is offered once and must fit; a terminal item waits for room and needs only a receiver. */
  predicate TakesText(env: Env, sent: nat) {
    env.connected(sent) && HasRoom(env, sent)
  }

  /** The receiver stays and empties the channel fast enough. */
  ghost predicate KeepsUp(env: Env) {
    forall k :: TakesText(env, k)
  }

  /** The receiver never leaves. */
  ghost predicate Stays(env: Env) {
    forall k :: env.connected(k)
  }

  predicate Terminal(i: Item) {
    i.Finished? || i.Failed?
  }

  predicate Ended(items: seq<Item>) {
    items != [] && Terminal(items[|items| - 1])
  }

  /** At most one terminal item, and nothing after it. */
  ghost predicate TerminalLast(items: seq<Item>) {
    forall i :: 0 <= i < |items| && Terminal(items[i]) ==> i == |items| - 1
  }

  // ---- Evaluating everything in one go

  /** The whole sequence in one batch: consecutive positions, logits at the last prompt token and after. */
  function OneShot(tokens: seq<Token>, promptLength: nat): Batch {
    seq(|tokens|, i requires 0 <= i < |tokens| => Slot(tokens[i], i, i + 1 >= promptLength))
  }

  function Flatten(batches: seq<Batch>): Batch {
    if batches == [] then [] else Flatten(batches[..|batches| - 1]) + batches[|batches| - 1]
  }

  lemma FlattenAppends(batches: seq<Batch>, b: Batch)
    ensures Flatten(batches + [b]) == Flatten(batches) + b
  {
    assert (batches + [b])[..|batches|] == batches;
  }

  lemma OneShotAppends(tokens: seq<Token>, t: Token, promptLength: nat)
    ensures OneShot(tokens + [t], promptLength)
            == OneShot(tokens, promptLength) + [Slot(t, |tokens|, |tokens| + 1 >= promptLength)]
  {}

  ghost predicate BatchesWithin(batches: seq<Batch>, size: nat) {
    forall i :: 0 <= i < |batches| ==> 1 <= |batches[i]| <= size
  }

  /** The first n sampled tokens. */
  ghost function Sampled(env: Env, n: nat): seq<Token> {
    seq(n, i requires 0 <= i < n => env.sample(i))
  }

  /** The non-empty texts of the first n sampled tokens, in order. */
  ghost function Texts(env: Env, n: nat): seq<Item> {
    if n == 0 then []
    else Texts(env, n - 1) + TextOf(env, n - 1)
  }

  function TextOf(env: Env, i: nat): seq<Item> {
    if env.piece(i).Some? && env.piece(i).value != "" then [Text(env.piece(i).value)] else []
  }

  lemma TextsAreNotTerminal(env: Env, n: nat)
    ensures forall t :: t in Texts(env, n) ==> t.Text?
    ensures forall i :: 0 <= i < |Texts(env, n)| ==> Texts(env, n)[i].Text?
  {}

  function Min(a: nat, b: nat): nat {
    if a < b then a else b
  }

  function Max(a: nat, b: nat): nat {
    if a > b then a else b
  }

  function EvalBatchSize(batchSize: nat, contextLength: nat): nat {
    Min(Max(batchSize, 1), contextLength)
  }

  // ---- The generation loop

  /** Evaluates the prompt in chunks. */
  method EvaluatePrompt(prompt: seq<Token>, size: nat, env: Env) returns (ok: bool, decoded: seq<Batch>)
    requires size >= 1
    ensures BatchesWithin(decoded, size)
    ensures Flatten(decoded) <= OneShot(prompt, |prompt|)
    ensures ok ==> Flatten(decoded) == OneShot(prompt, |prompt|)
    ensures forall i :: 0 <= i < |decoded| - 1 ==> |decoded[i]| == size
    ensures (forall i :: 0 <= i < |decoded| ==> env.decodes(i)) && (!ok ==> !env.decodes(|decoded|))
  {
    decoded := [];
    var position := 0;
    while position < |prompt|
      invariant position <= |prompt|
      invariant BatchesWithin(decoded, size)
      invariant forall i :: 0 <= i < |decoded| && (i < |decoded| - 1 || position < |prompt|) ==> |decoded[i]| == size
      invariant Flatten(decoded) == OneShot(prompt, |prompt|)[..position]
      invariant forall i :: 0 <= i < |decoded| ==> env.decodes(i)
    {
      var end := Min(position + size, |prompt|);
      var start := position;
      var batch: Batch := [];
      while position < end
        invariant start <= position <= end
        invariant batch == OneShot(prompt, |prompt|)[start..position]
      {
        assert |batch| < size;
        batch := batch + [Slot(prompt[position], position, position + 1 == |prompt|)];
        position := position + 1;
      }
      assert |batch| == end - start;
      assert OneShot(prompt, |prompt|)[..start] + batch == OneShot(prompt, |prompt|)[..end];
      if !env.decodes(|decoded|) { return false, decoded; }
      FlattenAppends(decoded, batch);
      decoded := decoded + [batch];
    }
    ok := true;
  }

  /** What the loop has done after evaluating n sampled tokens. */
  ghost predicate Evaluated(prompt: seq<Token>, n: nat, size: nat, env: Env, decoded: seq<Batch>) {
    && BatchesWithin(decoded, size)
    && Flatten(decoded) == OneShot(prompt + Sampled(env, n), |prompt|)
    && forall i :: 0 <= i < n ==> !env.isEnd(env.sample(i)) && env.piece(i).Some?
  }

  lemma EvaluatedOneMore(prompt: seq<Token>, n: nat, size: nat, env: Env, decoded: seq<Batch>)
    requires Evaluated(prompt, n, size, env, decoded) && size >= 1
    requires !env.isEnd(env.sample(n)) && env.piece(n).Some?
    ensures Evaluated(prompt, n + 1, size, env, decoded + [[Slot(env.sample(n), |prompt| + n, true)]])
  {
    var b := [Slot(env.sample(n), |prompt| + n, true)];
    FlattenAppends(decoded, b);
    assert Sampled(env, n + 1) == Sampled(env, n) + [env.sample(n)];
    assert prompt + Sampled(env, n + 1) == prompt + Sampled(env, n) + [env.sample(n)];
    OneShotAppends(prompt + Sampled(env, n), env.sample(n), |prompt|);
  }

  /** The prompt fits and the context is there. */
  predicate Loads(env: Env, contextLength: nat) {
    env.tokens.Some? && |env.tokens.value| < contextLength && env.contextCreated
  }

  /** Nothing fails and the client keeps up. */
  ghost predicate Smooth(env: Env, contextLength: nat) {
    Loads(env, contextLength) && Decoding(env) && KeepsUp(env)
  }

  /** How many tokens may be generated after the prompt. */
  function Limit(env: Env, maxTokens: nat, contextLength: nat): nat {
    if env.tokens.Some? && |env.tokens.value| < contextLength
    then Min(maxTokens, contextLength - |env.tokens.value|) else 0
  }

  ghost predicate Decoding(env: Env) {
    (forall k :: env.decodes(k)) && forall k :: env.piece(k).Some?
  }

  lemma EvaluatedLength(prompt: seq<Token>, n: nat, size: nat, env: Env, decoded: seq<Batch>)
    requires Evaluated(prompt, n, size, env, decoded)
    ensures Flatten(decoded) == OneShot(prompt + Sampled(env, n), |prompt|) && |Flatten(decoded)| == |prompt| + n
  {}

  lemma NothingSampled(prompt: seq<Token>, env: Env)
    ensures prompt + Sampled(env, 0) == prompt
  {}

  lemma NoFailureInTexts(env: Env, n: nat)
    ensures TerminalLast(Texts(env, n)) && TerminalLast(Texts(env, n) + [Finished])
    ensures Failed !in Texts(env, n) && Finished !in Texts(env, n)
    ensures Texts(env, n) <= Texts(env, n + 1)
  {
    TextsAreNotTerminal(env, n);
  }

  // ---- Where the loop ends

  /** The number of tokens up to the limit or the first end token. */
  function StopsAt(env: Env, limit: nat): (n: nat)
    ensures n <= limit
  {
    StopsFrom(env, 0, limit)
  }

  function StopsFrom(env: Env, i: nat, limit: nat): (n: nat)
    requires i <= limit
    ensures i <= n <= limit
    decreases limit - i
  {
    if i == limit || env.isEnd(env.sample(i)) then i else StopsFrom(env, i + 1, limit)
  }

  /** The text of token i would be sent, but it does not fit or nobody is there to take it. */
  ghost predicate Overrun(env: Env, limit: nat, i: nat) {
    i < StopsAt(env, limit) && TextOf(env, i) != [] && !TakesText(env, |Texts(env, i)|)
  }

  /** All that was asked for: up to the number asked for, the end of the context, or the first end token. */
  ghost predicate Complete(env: Env, maxTokens: nat, contextLength: nat, n: nat)
    requires env.tokens.Some?
  {
    && n <= maxTokens && |env.tokens.value| + n <= contextLength
    && (forall i: nat :: i < n ==> !env.isEnd(env.sample(i)))
    && (n == maxTokens || |env.tokens.value| + n == contextLength || env.isEnd(env.sample(n)))
  }

  lemma {:induction false} StopsFromMeans(env: Env, i: nat, limit: nat)
    requires i <= limit
    ensures var n := StopsFrom(env, i, limit);
      (forall j: nat :: i <= j < n ==> !env.isEnd(env.sample(j))) && (n == limit || env.isEnd(env.sample(n)))
    decreases limit - i
  {
    if i < limit && !env.isEnd(env.sample(i)) { StopsFromMeans(env, i + 1, limit); }
  }

  /** The loop's limit is such that it ends with exactly all that was asked for. */
  lemma StopsWhenComplete(env: Env, maxTokens: nat, contextLength: nat, n: nat)
    requires env.tokens.Some? && |env.tokens.value| < contextLength
    ensures Complete(env, maxTokens, contextLength, n) <==> n == StopsAt(env, Limit(env, maxTokens, contextLength))
  {
    StopsFromMeans(env, 0, Limit(env, maxTokens, contextLength));
    var m := StopsAt(env, Limit(env, maxTokens, contextLength));
    hide StopsFrom;
    if n < m { assert !env.isEnd(env.sample(n)); }
  }

  /** The text of some of the first n tokens would not be taken at once. */
  ghost predicate OverrunsBefore(env: Env, n: nat) {
    exists i: nat :: i < n && TextOf(env, i) != [] && !TakesText(env, |Texts(env, i)|)
  }

  lemma OverrunsAreBefore(env: Env, limit: nat)
    ensures Overruns(env, limit) <==> OverrunsBefore(env, StopsAt(env, limit))
  {
    hide StopsAt, TextOf, Texts, TakesText;
    if Overruns(env, limit) { var i: nat :| Overrun(env, limit, i); }
    if OverrunsBefore(env, StopsAt(env, limit)) {
      var i: nat :| i < StopsAt(env, limit) && TextOf(env, i) != [] && !TakesText(env, |Texts(env, i)|);
      assert Overrun(env, limit, i);
    }
  }

  ghost predicate Overruns(env: Env, limit: nat) {
    exists i: nat :: Overrun(env, limit, i)
  }

  /** The tokens before i have texts and are evaluated, `base` batches having been decoded for the prompt. */
  ghost predicate EvaluatesTo(env: Env, base: nat, i: nat) {
    forall j: nat :: j < i ==> env.piece(j).Some? && env.decodes(base + j)
  }

  ghost predicate OverrunsAfter(env: Env, limit: nat, base: nat) {
    exists i: nat :: Overrun(env, limit, i) && EvaluatesTo(env, base, i)
  }

  /** The first i tokens were evaluated and none of them overran. */
  ghost predicate NotYet(env: Env, limit: nat, base: nat, i: nat) {
    EvaluatesTo(env, base, i) && forall j: nat :: j < i ==> !Overrun(env, limit, j)
  }

  lemma StillNotYet(env: Env, limit: nat, base: nat, i: nat)
    requires NotYet(env, limit, base, i) && !Overrun(env, limit, i) && env.piece(i).Some? && env.decodes(base + i)
    ensures NotYet(env, limit, base, i + 1)
  {
    hide Overrun;
    forall j: nat | j < i + 1 ensures env.piece(j).Some? && env.decodes(base + j) && !Overrun(env, limit, j) {
      if j < i { assert env.piece(j).Some?; }
    }
  }

  lemma NotAtAll(env: Env, limit: nat, base: nat, i: nat)
    requires NotYet(env, limit, base, i)
    requires i == StopsAt(env, limit) || (!Overrun(env, limit, i) && !(env.piece(i).Some? && env.decodes(base + i)))
    ensures !OverrunsAfter(env, limit, base)
  {}

  lemma NothingYet(env: Env, limit: nat, base: nat)
    ensures StopsAt(env, limit) == StopsFrom(env, 0, limit) && NotYet(env, limit, base, 0)
  {}

  lemma OverrunAfter(env: Env, limit: nat, base: nat, i: nat)
    requires NotYet(env, limit, base, i) && Overrun(env, limit, i)
    ensures OverrunsAfter(env, limit, base)
  {}

  /** What a token that does not end the loop means for it. */
  lemma AtToken(env: Env, limit: nat, i: nat, sent: seq<Item>)
    requires i < limit && StopsAt(env, limit) == StopsFrom(env, i, limit) && sent == Texts(env, i)
    requires !env.isEnd(env.sample(i))
    ensures i < StopsAt(env, limit) && StopsAt(env, limit) == StopsFrom(env, i + 1, limit)
    ensures Overrun(env, limit, i) <==>
              env.piece(i).Some? && env.piece(i).value != "" && !TakesText(env, |sent|)
  {}

  /** What was sent had been taken. */
  ghost predicate TextsTaken(env: Env, sent: seq<Item>) {
    forall j :: 0 <= j < |sent| && sent[j].Text? ==> TakesText(env, j)
  }

  lemma TakingNeedsReceiver(env: Env, sent: nat)
    requires TakesText(env, sent)
    ensures env.connected(sent)
  {}

  lemma NoTextsTaken(env: Env)
    ensures TextsTaken(env, [])
  {}

  lemma OneMoreTaken(env: Env, sent: seq<Item>, item: Item)
    requires TextsTaken(env, sent) && (item.Text? ==> TakesText(env, |sent|))
    ensures TextsTaken(env, sent + [item])
  {}

  lemma KeepingUpMeansNoOverrun(env: Env, limit: nat)
    requires KeepsUp(env)
    ensures !Overruns(env, limit)
  {
    hide StopsAt, Texts, TextOf;
  }

  lemma DecodingEvaluates(env: Env, limit: nat, base: nat)
    requires Decoding(env)
    ensures OverrunsAfter(env, limit, base) <==> Overruns(env, limit)
  {
    forall i: nat ensures EvaluatesTo(env, base, i) {}
  }

  /** One token after another, each evaluated right after it was sent. */
  method GenerateTokens(prompt: seq<Token>, limit: nat, size: nat, env: Env, evaluated: seq<Batch>)
    returns (outcome: Outcome, decoded: seq<Batch>, sent: seq<Item>, generated: nat)
    requires size >= 1 && Evaluated(prompt, 0, size, env, evaluated)
    ensures generated <= StopsAt(env, limit) && Evaluated(prompt, generated, size, env, decoded)
    ensures evaluated <= decoded && |decoded| == |evaluated| + generated
    ensures forall i :: |evaluated| <= i < |decoded| ==> env.decodes(i)
    ensures outcome == Done ==>
              && sent == Texts(env, generated) + (if env.connected(|Texts(env, generated)|) then [Finished] else [])
              && generated == StopsAt(env, limit)
    ensures outcome == GaveUp ==> sent == Texts(env, generated) && Overrun(env, limit, generated)
    ensures outcome == GaveUp <==> OverrunsAfter(env, limit, |evaluated|)
    ensures outcome == Error ==>
              || (sent == Texts(env, generated) && env.piece(generated).None?)
              || (sent == Texts(env, generated + 1) && !env.decodes(|decoded|))
    ensures Decoding(env) ==> outcome != Error
    ensures TextsTaken(env, sent)
    ensures forall j :: 0 <= j < |sent| ==> env.connected(j)
  {
    hide Evaluated, TakesText, TextsTaken, NotYet, Overrun, OverrunsAfter, StopsAt, EvaluatesTo, Flatten, OneShot;
    NoTextsTaken(env);
    decoded, sent, generated := evaluated, [], 0;
    assert StopsAt(env, limit) == StopsFrom(env, 0, limit) && NotYet(env, limit, |evaluated|, 0) by {
      NothingYet(env, limit, |evaluated|);
    }
    while generated < limit
      invariant generated <= limit && StopsAt(env, limit) == StopsFrom(env, generated, limit)
      invariant Evaluated(prompt, generated, size, env, decoded)
      invariant evaluated <= decoded && |decoded| == |evaluated| + generated
      invariant forall i :: |evaluated| <= i < |decoded| ==> env.decodes(i)
      invariant sent == Texts(env, generated) && TextsTaken(env, sent)
      invariant forall j :: 0 <= j < |sent| ==> env.connected(j)
      invariant NotYet(env, limit, |evaluated|, generated)
    {
      var token := env.sample(generated);
      if env.isEnd(token) { break; }
      AtToken(env, limit, generated, sent);
      var text := env.piece(generated);
      if text.None? {
        NotAtAll(env, limit, |evaluated|, generated);
        return Error, decoded, sent, generated;
      }
      if text.value != "" {
        if !TakesText(env, |sent|) {
          OverrunAfter(env, limit, |evaluated|, generated);
          return GaveUp, decoded, sent, generated;
        }
        TakingNeedsReceiver(env, |sent|);
        OneMoreTaken(env, sent, Text(text.value));
        sent := sent + [Text(text.value)];
      }
      if !env.decodes(|decoded|) {
        NotAtAll(env, limit, |evaluated|, generated);
        return Error, decoded, sent, generated;
      }
      EvaluatedOneMore(prompt, generated, size, env, decoded);
      StillNotYet(env, limit, |evaluated|, generated);
      decoded := decoded + [[Slot(token, |prompt| + generated, true)]];
      generated := generated + 1;
    }
    NotAtAll(env, limit, |evaluated|, generated);
    outcome := Done;
    if env.connected(|sent|) {
      OneMoreTaken(env, sent, Finished);
      sent := sent + [Finished];
    }
  }

  method GenerateImpl(maxTokens: nat, contextLength: nat, batchSize: nat, env: Env)
    returns (outcome: Outcome, decoded: seq<Batch>, sent: seq<Item>, generated: nat)
    ensures BatchesWithin(decoded, contextLength) && BatchesWithin(decoded, if batchSize == 0 then 1 else batchSize)
    ensures forall i :: 0 <= i < |decoded| - generated - 1 ==> |decoded[i]| == if batchSize == 0 then 1 else batchSize
    ensures |Flatten(decoded)| <= contextLength && generated <= maxTokens
    ensures outcome == Done ==> env.tokens.Some? && Complete(env, maxTokens, contextLength, generated)
    ensures !Loads(env, contextLength) ==> outcome == Error && decoded == [] && sent == []
    ensures forall i :: 0 <= i < |decoded| ==> env.decodes(i)
    ensures env.tokens.Some? ==>
              Flatten(decoded) <= OneShot(env.tokens.value + Sampled(env, generated), |env.tokens.value|)
    ensures outcome != Error ==>
              && Evaluated(env.tokens.value, generated, EvalBatchSize(batchSize, contextLength), env, decoded)
              && sent == Texts(env, generated)
                         + (if outcome == Done && env.connected(|Texts(env, generated)|) then [Finished] else [])
    ensures outcome == GaveUp ==> Overrun(env, Limit(env, maxTokens, contextLength), generated)
    ensures Loads(env, contextLength) && Decoding(env) ==>
              outcome != Error && (outcome == GaveUp <==> Overruns(env, Limit(env, maxTokens, contextLength)))
    ensures TextsTaken(env, sent) && forall j :: 0 <= j < |sent| ==> env.connected(j)
    ensures outcome == Done ==> (sent != [] && sent[|sent| - 1] == Finished) || !env.connected(|sent|)
    ensures outcome == Done ==> generated == StopsAt(env, Limit(env, maxTokens, contextLength))
    ensures outcome == Error ==> sent <= Texts(env, generated + 1)
    ensures TerminalLast(sent) && Failed !in sent && (outcome != Done ==> Finished !in sent)
    ensures Smooth(env, contextLength) ==> outcome == Done
  {
    hide Flatten, OneShot, Sampled, Texts, TerminalLast, BatchesWithin, StopsAt, Overrun, Overruns, OverrunsAfter;
    if KeepsUp(env) { KeepingUpMeansNoOverrun(env, Limit(env, maxTokens, contextLength)); }
    decoded, sent, generated := [], [], 0;
    NothingDone();
    NoFailureInTexts(env, 0);
    if env.tokens.None? { return Error, decoded, sent, generated; }
    var prompt := env.tokens.value;
    if |prompt| >= contextLength { return Error, decoded, sent, generated; }
    var limit := Limit(env, maxTokens, contextLength);
    var size := EvalBatchSize(batchSize, contextLength);
    if !env.contextCreated { return Error, decoded, sent, generated; }
    NothingSampled(prompt, env);
    var ok;
    ok, decoded := EvaluatePrompt(prompt, size, env);
    assert |OneShot(prompt, |prompt|)| == |prompt| by { OneShotLength(prompt); }
    BatchesFit(prompt, decoded, decoded, size, batchSize, contextLength, 0);
    if !ok { return Error, decoded, sent, generated; }
    if Decoding(env) { DecodingEvaluates(env, limit, |decoded|); }
    ghost var base := decoded;
    outcome, decoded, sent, generated := GenerateTokens(prompt, limit, size, env, decoded);
    StopsWhenComplete(env, maxTokens, contextLength, generated);
    BatchesFit(prompt, base, decoded, size, batchSize, contextLength, generated);
    EvaluatedLength(prompt, generated, size, env, decoded);
    assert Texts(env, generated) + [] == Texts(env, generated);
    NoFailureInTexts(env, generated);
    NoFailureInTexts(env, generated + 1);
  }

  /** The evaluation size is the smaller one of the two bounds, and of the prompt only the last batch may fall short. */
  lemma BatchesFit(prompt: seq<Token>, base: seq<Batch>, decoded: seq<Batch>, size: nat, batchSize: nat,
                   contextLength: nat, generated: nat)
    requires BatchesWithin(decoded, size) && |prompt| < contextLength && size == EvalBatchSize(batchSize, contextLength)
    requires base <= decoded && |decoded| == |base| + generated && |Flatten(base)| <= |prompt|
    requires BatchesWithin(base, size) && forall i :: 0 <= i < |base| - 1 ==> |base[i]| == size
    ensures BatchesWithin(decoded, contextLength) && BatchesWithin(decoded, if batchSize == 0 then 1 else batchSize)
    ensures forall i :: 0 <= i < |decoded| - generated - 1 ==> |decoded[i]| == if batchSize == 0 then 1 else batchSize
  {
    if |base| > 1 {
      assert base[0] in base;
      FirstIsShorter(base);
      assert |base[0]| == size;
    }
  }

  lemma {:induction false} FirstIsShorter(batches: seq<Batch>)
    requires |batches| >= 1
    ensures |batches[0]| <= |Flatten(batches)|
  {
    if |batches| > 1 { FirstIsShorter(batches[..|batches| - 1]); }
    else { assert Flatten(batches[..0]) == []; }
  }

  lemma OneShotLength(tokens: seq<Token>)
    ensures |OneShot(tokens, |tokens|)| == |tokens|
  {}

  lemma NothingDone()
    ensures Flatten([]) == [] && TerminalLast([])
    ensures forall size :: BatchesWithin([], size)
  {}

  // ---- The worker's handling of one Generate command

  /**
   * `loads` says whether loading the default model would succeed, `backend` whether the library initialised. A
   * stream without a terminal item means that the receiver left, or that it let the channel fill up before a text.
   */
  method HandleGenerate(modelPresent: bool, loads: bool, backend: bool, maxTokens: nat, contextLength: nat,
                        batchSize: nat, env: Env)
    returns (sent: seq<Item>, modelAfter: bool, ghost gaveUp: bool, ghost generated: nat)
    ensures TerminalLast(sent) && TextsTaken(env, sent)
    ensures forall j :: 0 <= j < |sent| ==> env.connected(j) && (sent[j].Text? ==> j < env.taken(j) + 64)
    ensures gaveUp ==> !env.connected(|sent|) || |sent| >= env.taken(|sent|) + 64
    ensures modelAfter == (modelPresent || loads)
    ensures Smooth(env, contextLength) && modelAfter && backend ==> sent != [] && sent[|sent| - 1] == Finished
    ensures (!modelAfter || !backend || !Loads(env, contextLength)) && env.connected(0) ==> sent == [Failed]
    ensures gaveUp ==> !Ended(sent) && sent == Texts(env, generated)
    ensures gaveUp ==> Overrun(env, Limit(env, maxTokens, contextLength), generated)
    ensures !Ended(sent) ==> !env.connected(|sent|) || (gaveUp && !HasRoom(env, |sent|))
    ensures KeepsUp(env) ==> Ended(sent)
    ensures generated <= maxTokens
    ensures sent != [] && sent[|sent| - 1] == Finished ==>
              && sent == Texts(env, generated) + [Finished] && !gaveUp
              && env.tokens.Some? && Complete(env, maxTokens, contextLength, generated)
    ensures Stays(env) && Failed !in sent && !gaveUp ==> sent != [] && sent[|sent| - 1] == Finished
    ensures var limit := Limit(env, maxTokens, contextLength);
            modelAfter && backend && Loads(env, contextLength) && Decoding(env) && Stays(env) ==>
              && (Ended(sent) <==> !gaveUp) && (gaveUp <==> Overruns(env, limit))
              && (Ended(sent) ==> generated == StopsAt(env, limit) && sent == Texts(env, generated) + [Finished])
  {
    hide Texts, TextOf, Evaluated, OneShot, Flatten, BatchesWithin, Sampled, StopsAt, Overruns, Complete, Limit,
      Decoding;
    gaveUp, generated := false, 0;
    if !modelPresent && !loads {
      assert KeepsUp(env) ==> TakesText(env, 0);
      return if env.connected(0) then [Failed] else [], false, false, 0;
    }
    modelAfter := true;
    sent := [];
    var outcome := Error;
    if backend {
      var decoded, count;
      outcome, decoded, sent, count := GenerateImpl(maxTokens, contextLength, batchSize, env);
      if outcome == Error { TextsAreNotTerminal(env, count + 1); } else { NoFailureInTexts(env, count); }
      assert Texts(env, count) + [] == Texts(env, count);
      gaveUp, generated := outcome == GaveUp, count;
    }
    assert KeepsUp(env) ==> TakesText(env, |sent|);
    if outcome == Error && env.connected(|sent|) { sent := sent + [Failed]; }
  }

  // ---- The request handlers' side of the stream

  /** A response on the gRPC stream: an error status, or text with the number of tokens so far. */
  datatype Response = Status | Answer(text: string, finished: bool, tokensUsed: nat)

  function ResponseTo(items: seq<Item>, i: nat): Response
    requires i < |items|
  {
    match items[i]
    case Failed => Status
    case Finished => Answer("", true, CountTexts(items[..i]))
    case Text(text) => Answer(text, false, CountTexts(items[..i]) + 1)
  }

  function CountTexts(items: seq<Item>): nat {
    if items == [] then 0
    else CountTexts(items[..|items| - 1]) + if items[|items| - 1].Text? then 1 else 0
  }

  predicate EndsStream(r: Response) {
    r.Status? || r.finished
  }

  /** stream_generate's loop: forwards until the stream ends, a terminal item is forwarded, or the client is gone. */
  method Forward(items: seq<Item>, clientOpen: nat -> bool) returns (responses: seq<Response>)
    ensures |responses| <= |items|
    ensures forall i :: 0 <= i < |responses| ==> responses[i] == ResponseTo(items, i)
    ensures forall i :: 0 <= i < |responses| && EndsStream(responses[i]) ==> i == |responses| - 1
    ensures forall i :: 0 <= i < |responses| ==> clientOpen(i)
    ensures |responses| < |items| ==>
              (responses != [] && EndsStream(responses[|responses| - 1])) || !clientOpen(|responses|)
    ensures (forall k :: clientOpen(k)) && TerminalLast(items) ==> |responses| == |items|
  {
    responses := [];
    var tokensUsed := 0;
    var next := 0;
    while next < |items|
      invariant next <= |items| && |responses| == next
      invariant tokensUsed == CountTexts(items[..next])
      invariant forall i :: 0 <= i < |responses| ==> responses[i] == ResponseTo(items, i) && !EndsStream(responses[i])
      invariant forall i :: 0 <= i < |responses| ==> clientOpen(i)
    {
      var item := items[next];
      assert items[..next + 1][..next] == items[..next];
      if item.Failed? {
        if clientOpen(next) { responses := responses + [Status]; }
        return;
      }
      if item.Text? { tokensUsed := tokensUsed + 1; }
      if !clientOpen(next) { return; }
      responses := responses + [Answer(if item.Text? then item.text else "", item.Finished?, tokensUsed)];
      if item.Finished? { return; }
      next := next + 1;
    }
  }

  function Joined(items: seq<Item>): string {
    if items == [] then ""
    else Joined(items[..|items| - 1]) + if items[|items| - 1].Text? then items[|items| - 1].text else ""
  }

  /** generate's loop: the whole text, or an error as soon as one arrives. */
  method Collect(items: seq<Item>) returns (result: Option<string>, tokensUsed: nat)
    ensures result.None? <==> Failed in items
    ensures result.Some? ==> result.value == Joined(items) && tokensUsed == CountTexts(items)
  {
    var text := "";
    tokensUsed := 0;
    var next := 0;
    while next < |items|
      invariant next <= |items|
      invariant Failed !in items[..next]
      invariant text == Joined(items[..next]) && tokensUsed == CountTexts(items[..next])
    {
      var item := items[next];
      assert items[..next + 1][..next] == items[..next];
      if item.Failed? { return None, tokensUsed; }
      if item.Text? {
        text := text + item.text;
        tokensUsed := tokensUsed + 1;
      }
      next := next + 1;
    }
    assert items[..next] == items;
    result := Some(text);
  }

  /** What is streamed piecewise and what is returned at once are the same text and count. */
  lemma {:induction false} StreamedEqualsCollected(items: seq<Item>)
    requires forall i :: 0 <= i < |items| ==> !items[i].Failed?
    ensures Joined(items) == StreamedText(items, |items|)
    ensures items != [] ==> ResponseTo(items, |items| - 1).tokensUsed == CountTexts(items)
  {
    if items != [] {
      var front := items[..|items| - 1];
      StreamedEqualsCollected(front);
      StreamedPrefix(items, front, |front|);
    }
  }

  /** The texts of the first n responses, joined. */
  function StreamedText(items: seq<Item>, n: nat): string
    requires n <= |items| && forall i :: 0 <= i < n ==> !items[i].Failed?
  {
    if n == 0 then "" else StreamedText(items, n - 1) + ResponseTo(items, n - 1).text
  }

  lemma {:induction false} StreamedPrefix(items: seq<Item>, front: seq<Item>, n: nat)
    requires n <= |front| && front <= items && forall i :: 0 <= i < n ==> !items[i].Failed?
    ensures StreamedText(items, n) == StreamedText(front, n)
  {
    if n > 0 {
      assert items[..n - 1] == front[..n - 1];
      StreamedPrefix(items, front, n - 1);
    }
  }

  // ---- The whole way of a generate request

  lemma JoinedAppends(items: seq<Item>, more: seq<Item>)
    requires |more| <= 1
    ensures Joined(items + more) == Joined(items) + Joined(more)
    ensures CountTexts(items + more) == CountTexts(items) + CountTexts(more)
  {
    if more == [] {
      assert items + more == items;
    } else {
      assert (items + more)[..|items|] == items;
      assert more[..0] == [];
    }
  }

  /** Fewer tokens give less text, once a token in between has some. */
  lemma {:induction false} LessTextBefore(env: Env, m: nat, n: nat)
    requires m < n && TextOf(env, m) != []
    ensures |Joined(Texts(env, m))| < |Joined(Texts(env, n))|
    decreases n
  {
    hide Joined, TextOf, CountTexts;
    OneMoreText(env, n - 1);
    if m < n - 1 { LessTextBefore(env, m, n - 1); }
  }

  lemma OneMoreText(env: Env, n: nat)
    ensures |Joined(Texts(env, n + 1))| >= |Joined(Texts(env, n))|
    ensures TextOf(env, n) != [] ==> |Joined(Texts(env, n + 1))| > |Joined(Texts(env, n))|
  {
    JoinedAppends(Texts(env, n), TextOf(env, n));
    hide Texts;
    assert TextOf(env, n) != [] ==> TextOf(env, n)[..0] == [] && Joined(TextOf(env, n)) == env.piece(n).value;
  }

  lemma {:induction false} NoFailureIn(env: Env, n: nat)
    ensures Failed !in Texts(env, n) && Failed !in Texts(env, n) + [Finished]
  {
    TextsAreNotTerminal(env, n);
  }

  lemma {:induction false} AtMostOneTextEach(env: Env, n: nat)
    ensures CountTexts(Texts(env, n)) <= n
  {
    if n > 0 {
      AtMostOneTextEach(env, n - 1);
      JoinedAppends(Texts(env, n - 1), TextOf(env, n - 1));
    }
  }

  /**
   * The generate call, which waits for the stream of the worker to close and returns what it collected. Its handler
   * keeps the receiver. When nothing fails it always reports a complete answer, and the answer is the text of all
   * `whole` tokens that were asked for exactly when the channel never overran; otherwise it is strictly shorter.
   */
  method Generate(modelPresent: bool, loads: bool, backend: bool, maxTokens: nat, contextLength: nat, batchSize: nat,
                  env: Env)
    returns (result: Option<string>, tokensUsed: nat, ghost whole: nat)
    requires Stays(env)
    ensures (!modelPresent && !loads) || !backend ==> result.None?
    ensures result.Some? ==> tokensUsed <= maxTokens
    ensures (modelPresent || loads) && backend && Loads(env, contextLength) && Decoding(env) ==>
              && Complete(env, maxTokens, contextLength, whole)
              && result.Some?
              && (result.value == Joined(Texts(env, whole)) <==> !OverrunsBefore(env, whole))
              && (OverrunsBefore(env, whole) ==> |result.value| < |Joined(Texts(env, whole))|)
              && (!OverrunsBefore(env, whole) ==> tokensUsed == CountTexts(Texts(env, whole)))
  {
    hide Joined, CountTexts, Texts, TextOf, Overruns, StopsAt, TerminalLast, TextsTaken, Decoding, OverrunsBefore,
      Overrun, Complete, Limit;
    var sent, modelAfter;
    ghost var gaveUp, generated;
    sent, modelAfter, gaveUp, generated :=
      HandleGenerate(modelPresent, loads, backend, maxTokens, contextLength, batchSize, env);
    result, tokensUsed := Collect(sent);
    NoFailureIn(env, generated);
    CutOffLooksFinished(env, generated);
    AtMostOneTextEach(env, generated);
    ghost var limit := Limit(env, maxTokens, contextLength);
    whole := StopsAt(env, limit);
    OverrunsAreBefore(env, limit);
    if Loads(env, contextLength) { StopsWhenComplete(env, maxTokens, contextLength, whole); }
    if gaveUp { OverrunShortens(env, limit, generated); }
  }

  /** A stream that was cut off collects to the text and count of one that was asked for no more and finished. */
  lemma CutOffLooksFinished(env: Env, n: nat)
    ensures Joined(Texts(env, n) + [Finished]) == Joined(Texts(env, n))
    ensures CountTexts(Texts(env, n) + [Finished]) == CountTexts(Texts(env, n))
  {
    JoinedAppends(Texts(env, n), [Finished]);
    assert [Finished][..0] == [];
  }

  lemma OverrunShortens(env: Env, limit: nat, n: nat)
    requires Overrun(env, limit, n)
    ensures |Joined(Texts(env, n))| < |Joined(Texts(env, StopsAt(env, limit)))|
  {
    LessTextBefore(env, n, StopsAt(env, limit));
  }

  // ---- A client that takes nothing for a while

  /** Every token has the same text, none ends, nothing fails, and the client stays but takes nothing yet. */
  function SlowClient(prompt: seq<Token>, text: string): Env {
    Env(Some(prompt), true, _ => true, _ => 0, _ => false, _ => Some(text), _ => true, _ => 0)
  }

  lemma {:induction false} EveryTokenHasText(prompt: seq<Token>, text: string, n: nat)
    requires text != ""
    ensures Texts(SlowClient(prompt, text), n) == seq(n, _ => Text(text))
  {
    if n > 0 { EveryTokenHasText(prompt, text, n - 1); }
  }

  lemma {:induction false} NeverEnds(prompt: seq<Token>, text: string, i: nat, limit: nat)
    requires i <= limit
    ensures StopsFrom(SlowClient(prompt, text), i, limit) == limit
    decreases limit - i
  {
    if i < limit { NeverEnds(prompt, text, i + 1, limit); }
  }

  lemma SlowClientOverruns(prompt: seq<Token>, text: string, limit: nat)
    requires text != "" && limit > CAPACITY
    ensures Overruns(SlowClient(prompt, text), limit)
  {
    NeverEnds(prompt, text, 0, limit);
    EveryTokenHasText(prompt, text, CAPACITY);
    assert Overrun(SlowClient(prompt, text), limit, CAPACITY);
  }

  /** Asked for more than 64 tokens, it gets 64, no terminal item, and what was collected passes for the answer. */
  method SlowClientIsCutOff(prompt: seq<Token>, text: string, maxTokens: nat, contextLength: nat, batchSize: nat)
    returns (sent: seq<Item>, result: Option<string>)
    requires text != "" && |prompt| + 64 < contextLength && 64 < maxTokens
    ensures sent == seq(64, _ => Text(text)) && !Ended(sent)
    ensures result == Some(Joined(sent))
    ensures forall n: nat :: Complete(SlowClient(prompt, text), maxTokens, contextLength, n) ==>
              n > 64 && |result.value| < |Joined(Texts(SlowClient(prompt, text), n))|
  {
    hide Texts, TextOf, StopsAt, Overrun, Overruns, TextsTaken, Joined, CountTexts, TerminalLast, KeepsUp;
    var env := SlowClient(prompt, text);
    ghost var limit := Limit(env, maxTokens, contextLength);
    SlowClientOverruns(prompt, text, limit);
    var modelAfter;
    ghost var gaveUp, generated;
    sent, modelAfter, gaveUp, generated := HandleGenerate(true, true, true, maxTokens, contextLength, batchSize, env);
    SlowClientTakesNoMore(prompt, text, sent, generated, limit);
    var tokensUsed;
    result, tokensUsed := Collect(sent);
    OverrunShortens(env, limit, generated);
    forall n: nat | Complete(env, maxTokens, contextLength, n) ensures n == StopsAt(env, limit) {
      StopsWhenComplete(env, maxTokens, contextLength, n);
    }
  }

  lemma SlowClientTakesNoMore(prompt: seq<Token>, text: string, sent: seq<Item>, generated: nat, limit: nat)
    requires text != "" && sent == Texts(SlowClient(prompt, text), generated)
    requires TextsTaken(SlowClient(prompt, text), sent) && Overrun(SlowClient(prompt, text), limit, generated)
    ensures sent == seq(CAPACITY, _ => Text(text)) && Failed !in sent
  {
    EveryTokenHasText(prompt, text, generated);
    hide Texts, StopsAt;
    assert !TakesText(SlowClient(prompt, text), CAPACITY);
    assert forall j :: 0 <= j < generated ==> sent[j].Text?;
  }
}
