/** The replay client: one flat cursor, and one cursor for every (sample, stage) with a list of replies. */
module Replay {
  import opened Common

  type Key = (string, string)

  /** What the fixture holds for one sample and stage. */
  datatype Script = One(reply: string) | Many(replies: seq<string>)

  datatype SampleFixture = Stages(scripts: map<string, Script>) | Plain(reply: string) | Invalid

  datatype Error = MissingStage | Exhausted | NotStageKeyed | InvalidFixture

  datatype Request = Request(sample: string, stage: string, requireStageKeyed: bool)

  datatype Cursors = Cursors(index: nat, stages: map<Key, nat>)

  datatype Fixture = Fixture(flat: seq<string>, bySample: map<string, SampleFixture>)

  function StageCursor(c: Cursors, key: Key): nat {
    if key in c.stages then c.stages[key] else 0
  }

  /** The answer to one request and the cursors after it. */
  function Answer(f: Fixture, c: Cursors, r: Request): (Result<string, Error>, Cursors)
    requires f.flat != []
  {
    if r.stage == "" || r.sample == "" || r.sample !in f.bySample then
      (Ok(f.flat[if c.index < |f.flat| then c.index else |f.flat| - 1]), c.(index := c.index + 1))
    else
      match f.bySample[r.sample]
      case Stages(scripts) =>
        if r.stage !in scripts then (Err(MissingStage), c)
        else (
          match scripts[r.stage]
          case One(reply) => (Ok(reply), c)
          case Many(replies) =>
            var k := StageCursor(c, (r.sample, r.stage));
            if k >= |replies| then (Err(Exhausted), c)
            else (Ok(replies[k]), c.(stages := c.stages[(r.sample, r.stage) := k + 1])))
      case Plain(reply) => if r.requireStageKeyed then (Err(NotStageKeyed), c) else (Ok(reply), c)
      case Invalid => if r.requireStageKeyed then (Err(NotStageKeyed), c) else (Err(InvalidFixture), c)
  }

  class ReplayClient {
    const fixture: Fixture
    var index: nat
    var stageIndices: map<Key, nat>

    ghost predicate Valid()
    {
      fixture.flat != []
    }

    function Model(): Cursors
      reads this
    {
      Cursors(index, stageIndices)
    }

    /** An absent or empty flat list is replaced by one empty object. */
    constructor (responses: seq<string>, bySample: map<string, SampleFixture>)
      ensures Valid() && Model() == Cursors(0, map[])
      ensures fixture == Fixture(if responses == [] then ["{}"] else responses, bySample)
    {
      fixture := Fixture(if responses == [] then ["{}"] else responses, bySample);
      index, stageIndices := 0, map[];
    }

    method NextFlatResponse() returns (content: string)
      requires Valid()
      modifies this`index
      ensures index == old(index) + 1
      ensures content == fixture.flat[if old(index) < |fixture.flat| then old(index) else |fixture.flat| - 1]
    {
      content := fixture.flat[if index < |fixture.flat| - 1 then index else |fixture.flat| - 1];
      index := index + 1;
    }

    method NextStageResponse(sample: string, stage: string, scripts: map<string, Script>)
      returns (r: Result<string, Error>)
      requires Valid() && sample != "" && stage != ""
      requires sample in fixture.bySample && fixture.bySample[sample] == Stages(scripts)
      modifies this`stageIndices
      ensures (r, Model()) == Answer(fixture, old(Model()), Request(sample, stage, false))
    {
      if stage !in scripts {
        return Err(MissingStage);
      }
      match scripts[stage] {
        case One(reply) => return Ok(reply);
        case Many(replies) =>
          var key := (sample, stage);
          var k := if key in stageIndices then stageIndices[key] else 0;
          if k >= |replies| {
            return Err(Exhausted);
          }
          stageIndices := stageIndices[key := k + 1];
          return Ok(replies[k]);
      }
    }

    method Chat(request: Request) returns (r: Result<string, Error>)
      requires Valid()
      modifies this
      ensures (r, Model()) == Answer(fixture, old(Model()), request)
      ensures request.stage == "" || request.sample == "" || request.sample !in fixture.bySample ==>
        r == Ok(fixture.flat[if old(index) < |fixture.flat| then old(index) else |fixture.flat| - 1]) &&
        index == old(index) + 1 && stageIndices == old(stageIndices)
      ensures request.stage != "" && request.sample in fixture.bySample && request.sample != "" ==>
        match fixture.bySample[request.sample]
        case Plain(reply) => r == if request.requireStageKeyed then Err(NotStageKeyed) else Ok(reply)
        case Invalid => r == Err(if request.requireStageKeyed then NotStageKeyed else InvalidFixture)
        case Stages(scripts) => request.stage !in scripts ==> r == Err(MissingStage)
    {
      if request.stage == "" || request.sample == "" || request.sample !in fixture.bySample {
        var content := NextFlatResponse();
        return Ok(content);
      }
      match fixture.bySample[request.sample] {
        case Stages(scripts) => r := NextStageResponse(request.sample, request.stage, scripts);
        case Plain(reply) => r := if request.requireStageKeyed then Err(NotStageKeyed) else Ok(reply);
        case Invalid => r := Err(if request.requireStageKeyed then NotStageKeyed else InvalidFixture);
      }
    }
  }

  // ---- interleavings -------------------------------------------------------------------------------

  function Final(f: Fixture, c: Cursors, requests: seq<Request>): Cursors
    requires f.flat != []
    decreases |requests|
  {
    if requests == [] then c else Final(f, Answer(f, c, requests[0]).1, requests[1..])
  }

  /** The answers given to the requests of one (sample, stage), in order. */
  function AnswersTo(f: Fixture, c: Cursors, requests: seq<Request>, key: Key): seq<Result<string, Error>>
    requires f.flat != []
    decreases |requests|
  {
    if requests == [] then []
    else
      var (answer, next) := Answer(f, c, requests[0]);
      (if (requests[0].sample, requests[0].stage) == key then [answer] else []) +
        AnswersTo(f, next, requests[1..], key)
  }

  /** The script of a key read from a position on: its replies, then exhaustion for ever. */
  function Read(replies: seq<string>, k: nat): Result<string, Error> {
    if k < |replies| then Ok(replies[k]) else Err(Exhausted)
  }

  /** Where a cursor stands after so many reads of a script: it stops at the end and never moves back. */
  function Moved(k: nat, answered: nat, length: nat): nat {
    if k >= length then k else if k + answered <= length then k + answered else length
  }

  /** The fixture scripts a list of replies for the key. */
  predicate Scripted(f: Fixture, key: Key, replies: seq<string>) {
    f.flat != [] && key.0 != "" && key.1 != "" && key.0 in f.bySample && f.bySample[key.0].Stages? &&
    key.1 in f.bySample[key.0].scripts && f.bySample[key.0].scripts[key.1] == Many(replies)
  }

  lemma AnswerMovesOwnKey(f: Fixture, c: Cursors, r: Request, key: Key, replies: seq<string>)
    requires Scripted(f, key, replies)
    ensures var (answer, next) := Answer(f, c, r);
      if (r.sample, r.stage) == key then
        answer == Read(replies, StageCursor(c, key)) &&
        StageCursor(next, key) == Moved(StageCursor(c, key), 1, |replies|)
      else StageCursor(next, key) == StageCursor(c, key)
  {
  }

  /** Whatever other requests are interleaved, a key is answered by its own script in order, and the flat
      cursor moves only for requests outside the keyed samples. */
  lemma {:induction false} KeyIsIndependent(
    f: Fixture, c: Cursors, requests: seq<Request>, key: Key, replies: seq<string>)
    requires Scripted(f, key, replies)
    ensures var answers, k := AnswersTo(f, c, requests, key), StageCursor(c, key);
      && (forall i :: 0 <= i < |answers| ==>
          answers[i] == if k + i < |replies| then Ok(replies[k + i]) else Err(Exhausted))
      && StageCursor(Final(f, c, requests), key) == Moved(k, |answers|, |replies|)
    decreases |requests|
  {
    hide Answer, StageCursor;
    if requests != [] {
      var (answer, next) := Answer(f, c, requests[0]);
      AnswerMovesOwnKey(f, c, requests[0], key, replies);
      KeyIsIndependent(f, next, requests[1..], key, replies);
    }
  }

  /** A key with a single reply gets it for every request, whatever is interleaved. */
  lemma {:induction false} SingleReplyIsConstant(
    f: Fixture, c: Cursors, requests: seq<Request>, key: Key, reply: string)
    requires f.flat != [] && key.0 != "" && key.1 != "" && key.0 in f.bySample && f.bySample[key.0].Stages?
    requires key.1 in f.bySample[key.0].scripts && f.bySample[key.0].scripts[key.1] == One(reply)
    ensures forall i :: 0 <= i < |AnswersTo(f, c, requests, key)| ==> AnswersTo(f, c, requests, key)[i] == Ok(reply)
    decreases |requests|
  {
    if requests != [] {
      SingleReplyIsConstant(f, Answer(f, c, requests[0]).1, requests[1..], key, reply);
    }
  }

  lemma {:induction false} KeyedRequestsKeepFlatCursor(f: Fixture, c: Cursors, requests: seq<Request>)
    requires f.flat != []
    requires forall r :: r in requests ==> r.stage != "" && r.sample != "" && r.sample in f.bySample
    ensures Final(f, c, requests).index == c.index
    decreases |requests|
  {
    if requests != [] {
      KeyedRequestsKeepFlatCursor(f, Answer(f, c, requests[0]).1, requests[1..]);
    }
  }
}
