/**
 Crash-safe publication of a QA artifact: write a temporary file, hard-link it to its final name, unlink the
 temporary. A process may die before any system call; the next attempt recovers from what it finds.
 */
module Publication {
  type Byte = b: int | 0 <= b < 256
  type Command = nat
  type Timestamp = nat
  type Inode = nat

  const NEWLINE: Byte := 10

  /** `body` is the canonical JSON text without the final newline; `accepts` is the payload validation. */
  datatype Codec = Codec(body: (Command, Timestamp) -> seq<Byte>, accepts: (Command, seq<Byte>) -> bool)

  function Payload(codec: Codec, cmd: Command, t: Timestamp): seq<Byte> {
    codec.body(cmd, t) + [NEWLINE]
  }

  /** A complete artifact: what the validation accepts for some command. */
  ghost predicate IsPayload(codec: Codec, raw: seq<Byte>) {
    exists cmd :: codec.accepts(cmd, raw)
  }

  predicate EndsInOnlyNewline(raw: seq<Byte>) {
    raw != [] && raw[|raw| - 1] == NEWLINE && NEWLINE !in raw[..|raw| - 1]
  }

  /** The validation accepts what the command itself writes. It accepts other texts too, since it compares decoded
      values, but only canonical JSON lines: a newline at the end and none before it. */
  ghost predicate Faithful(codec: Codec) {
    (forall cmd, t :: codec.accepts(cmd, Payload(codec, cmd, t))) &&
    (forall cmd, raw :: codec.accepts(cmd, raw) ==> EndsInOnlyNewline(raw))
  }

  /** Cutting a payload short never leaves a payload. */
  lemma PayloadsArePrefixFree(codec: Codec, raw: seq<Byte>, k: nat)
    requires Faithful(codec) && IsPayload(codec, raw) && k < |raw|
    ensures !IsPayload(codec, raw[..k])
  {
    assert EndsInOnlyNewline(raw);
    if k > 0 {
      assert raw[..k][k - 1] == raw[..|raw| - 1][k - 1];
    }
    assert !EndsInOnlyNewline(raw[..k]);
  }

  datatype Name = Temp | Final

  datatype Fs = Fs(names: map<Name, Inode>, data: map<Inode, seq<Byte>>, next: Inode) {
    predicate WellFormed() {
      (forall n :: n in names ==> names[n] in data) && (forall i :: i in data ==> i < next)
    }

    function LinkCount(i: Inode): nat {
      (if Temp in names && names[Temp] == i then 1 else 0) + (if Final in names && names[Final] == i then 1 else 0)
    }

    function Bytes(n: Name): seq<Byte>
      requires WellFormed() && n in names
    {
      data[names[n]]
    }

    function Created(raw: seq<Byte>): Fs {
      Fs(names[Temp := next], data[next := raw], next + 1)
    }

    function Linked(): Fs
      requires Temp in names
    {
      this.(names := names[Final := names[Temp]])
    }

    function Unlinked(): Fs {
      this.(names := names - {Temp})
    }
  }

  datatype Result = Done | Rejected | Crashed

  /** Every state an admitted attempt can leave, whatever the crash point and however short the writes. */
  ghost predicate AttemptLeaves(codec: Codec, s: Fs, cmd: Command, now: Timestamp, s': Fs, r: Result)
    requires s.WellFormed()
  {
    if Final in s.names then
      if (Temp in s.names && s.names[Temp] != s.names[Final]) || !codec.accepts(cmd, s.Bytes(Final))
      then s' == s && r != Done
      else if r == Done then s' == s.Unlinked() else r == Crashed && s' in {s, s.Unlinked()}
    else if Temp in s.names then
      if !codec.accepts(cmd, s.Bytes(Temp)) then s' == s && r != Done
      else if r == Done then s' == s.Linked().Unlinked()
      else r == Crashed && s' in {s, s.Linked(), s.Linked().Unlinked()}
    else
      var raw := Payload(codec, cmd, now);
      var full := s.Created(raw);
      if r == Done then s' == full.Linked().Unlinked()
      else r == Crashed && (s' in {s, full.Linked(), full.Linked().Unlinked()} || CutShort(s, raw, s'))
  }

  /** The temporary exists with some prefix of the payload, possibly all of it. */
  ghost predicate CutShort(s: Fs, raw: seq<Byte>, s': Fs) {
    exists k :: 0 <= k <= |raw| && s' == s.Created(raw[..k])
  }

  /** One step of a history: some command's attempt, or no change at all. */
  ghost predicate Advances(codec: Codec, s: Fs, s': Fs)
    requires s.WellFormed()
  {
    s' == s || exists cmd, now, r :: AttemptLeaves(codec, s, cmd, now, s', r)
  }

  lemma CreatedExtends(s: Fs, raw: seq<Byte>, offset: nat, written: nat)
    requires offset + written <= |raw|
    ensures var f := s.Created(raw[..offset]);
      s.next in f.data &&
      f.(data := f.data[s.next := f.data[s.next] + raw[offset..offset + written]]) ==
      s.Created(raw[..offset + written])
  {
    assert raw[..offset] + raw[offset..offset + written] == raw[..offset + written];
  }

  /** How many of the remaining bytes one write call takes. */
  function Written(length: nat, chunk: nat -> nat, offset: nat): (n: nat)
    requires offset < length
    ensures 1 <= n <= length - offset
  {
    1 + chunk(offset) % (length - offset)
  }

  /** How many bytes are written after so many write calls from an offset on. */
  function Progress(length: nat, chunk: nat -> nat, offset: nat, calls: nat): (n: nat)
    requires offset <= length
    ensures offset <= n <= length
    decreases calls
  {
    if calls == 0 || offset == length then offset
    else Progress(length, chunk, offset + Written(length, chunk, offset), calls - 1)
  }

  lemma ProgressStep(length: nat, chunk: nat -> nat, offset: nat, calls: nat)
    requires offset < length
    ensures Progress(length, chunk, offset, calls) ==
      if calls == 0 then offset
      else Progress(length, chunk, offset + Written(length, chunk, offset), calls - 1)
  {
  }

  lemma {:induction false} ProgressReaches(length: nat, chunk: nat -> nat, offset: nat, calls: nat)
    requires offset <= length
    ensures calls >= length - offset ==> Progress(length, chunk, offset, calls) == length
    decreases calls
  {
    if calls > 0 && offset < length {
      ProgressReaches(length, chunk, offset + Written(length, chunk, offset), calls - 1);
    }
  }

  /** What a process leaves that dies while it writes the temporary, after so many system calls. */
  function CutAt(s: Fs, raw: seq<Byte>, chunk: nat -> nat, calls: nat): Fs {
    if calls == 0 then s else s.Created(raw[..Progress(|raw|, chunk, 0, calls - 1)])
  }

  class Publisher {
    const codec: Codec
    var fs: Fs
    /** Results that were verified in this process and not yet published. */
    var verified: set<Command>
    /** How many more system calls this process survives. */
    var fuel: nat

    /** A new process: the directory is what the previous one left behind. */
    constructor (codec: Codec, fs: Fs, verified: set<Command>, fuel: nat)
      ensures this.codec == codec && this.fs == fs && this.verified == verified && this.fuel == fuel
    {
      this.codec, this.fs, this.verified, this.fuel := codec, fs, verified, fuel;
    }

    method SystemCall() returns (alive: bool)
      modifies this`fuel
      ensures alive <==> old(fuel) > 0
      ensures fuel == if alive then old(fuel) - 1 else 0
    {
      alive := fuel > 0;
      fuel := if alive then fuel - 1 else 0;
    }

    method Append(inode: Inode, raw: seq<Byte>, offset: nat, written: nat, ghost start: Fs)
      requires offset + written <= |raw| && fs == start.Created(raw[..offset]) && inode == start.next
      modifies this`fs
      ensures fs == start.Created(raw[..offset + written])
    {
      CreatedExtends(start, raw, offset, written);
      fs := fs.(data := fs.data[inode := fs.data[inode] + raw[offset..offset + written]]);
    }

    /** The write loop: `chunk` decides how much each call writes, at least one byte. */
    method WriteAll(raw: seq<Byte>, chunk: nat -> nat, ghost start: Fs) returns (alive: bool)
      requires Temp !in start.names && fs == start.Created([])
      modifies this`fs, this`fuel
      ensures alive <==> Progress(|raw|, chunk, 0, old(fuel)) == |raw|
      ensures fs == start.Created(raw[..Progress(|raw|, chunk, 0, old(fuel))])
      ensures alive ==> old(fuel) <= fuel + |raw| && (raw != [] ==> fuel < old(fuel))
    {
      hide Progress, Written;
      var inode := fs.names[Temp];
      var offset := 0;
      assert raw[..0] == [];
      while offset < |raw|
        invariant 0 <= offset <= |raw| && fs == start.Created(raw[..offset]) && inode == start.next
        invariant fuel <= old(fuel) <= fuel + offset && (offset > 0 ==> fuel < old(fuel))
        invariant Progress(|raw|, chunk, 0, old(fuel)) == Progress(|raw|, chunk, offset, fuel)
      {
        ProgressStep(|raw|, chunk, offset, fuel);
        alive := SystemCall();
        if !alive {
          return;
        }
        var written := Written(|raw|, chunk, offset);
        Append(inode, raw, offset, written, start);
        offset := offset + written;
      }
      return true;
    }

    /** Creates the temporary, writes it and syncs it. */
    method WriteTemporary(raw: seq<Byte>, chunk: nat -> nat) returns (alive: bool)
      requires fs.WellFormed() && Temp !in fs.names
      modifies this`fs, this`fuel
      ensures alive ==> fs == old(fs).Created(raw) && fuel + |raw| + 3 >= old(fuel)
      ensures !alive ==> fs == CutAt(old(fs), raw, chunk, old(fuel))
      ensures old(fuel) >= |raw| + 3 ==> alive
      ensures alive && raw != [] ==> old(fuel) >= 4
    {
      hide Progress;
      alive := SystemCall();
      if !alive {
        return;
      }
      ghost var start := fs;
      fs := fs.Created([]);
      ProgressReaches(|raw|, chunk, 0, fuel);
      alive := WriteAll(raw, chunk, start);
      if !alive {
        return;
      }
      assert raw[..|raw|] == raw;
      alive := SystemCall(); // fchmod
      if !alive {
        return;
      }
      alive := SystemCall(); // fsync
    }

    /** One attempt; `admitted` stands for the argument checks made before the directory is opened. */
    method WriteTaskQa(cmd: Command, now: Timestamp, admitted: bool, chunk: nat -> nat) returns (r: Result)
      requires fs.WellFormed()
      modifies this
      ensures !admitted || cmd !in old(verified) ==> r == Rejected && fs == old(fs) && verified == old(verified)
      ensures admitted && cmd in old(verified) ==> AttemptLeaves(codec, old(fs), cmd, now, fs, r)
      ensures r == Done ==> verified == old(verified) - {cmd}
      ensures r == Rejected ==> verified == old(verified) && fs == old(fs)
      ensures r == Crashed ==> verified == {}
      ensures old(fuel) >= |Payload(codec, cmd, now)| + 7 ==> r != Crashed
      ensures admitted && cmd in old(verified) && old(fs).names == map[] && old(fuel) <= 3 ==>
        r == Crashed && fs == CutAt(old(fs), Payload(codec, cmd, now), chunk, old(fuel))
    {
      if !admitted || cmd !in verified {
        return Rejected;
      }
      var hasFinal, hasTemp := Final in fs.names, Temp in fs.names;
      if !hasFinal {
        if hasTemp && fs.LinkCount(fs.names[Temp]) != 1 {
          return Rejected;
        }
      } else if !hasTemp {
        if fs.LinkCount(fs.names[Final]) != 1 {
          return Rejected;
        }
      } else if fs.LinkCount(fs.names[Final]) != 2 || fs.names[Temp] != fs.names[Final] {
        return Rejected;
      }
      if hasFinal {
        if !codec.accepts(cmd, fs.Bytes(Final)) {
          return Rejected;
        }
        if hasTemp {
          r := Step(fs.Unlinked(), cmd, true);
          return;
        }
        verified := verified - {cmd};
        assert fs.Unlinked() == fs;
        return Done;
      }
      if !hasTemp {
        var raw := Payload(codec, cmd, now);
        assert raw[..|raw|] == raw;
        var alive := WriteTemporary(raw, chunk);
        if !alive {
          verified := {};
          return Crashed;
        }
      } else if !codec.accepts(cmd, fs.Bytes(Temp)) {
        return Rejected;
      }
      r := Step(fs.Linked(), cmd, false);
      if r == Done {
        r := Step(fs.Unlinked(), cmd, true);
      }
    }

    /** One directory change and its fsync; the last one also releases the verified result. */
    method Step(after: Fs, cmd: Command, last: bool) returns (r: Result)
      modifies this
      ensures r == Done ==> fs == after && verified == (if last then old(verified) - {cmd} else old(verified))
      ensures r != Done ==> r == Crashed && fs in {old(fs), after} && verified == {}
      ensures old(fuel) >= 2 ==> r == Done && fuel == old(fuel) - 2
    {
      var alive := SystemCall();
      if alive {
        fs := after;
        alive := SystemCall(); // fsync of the directory
      }
      if !alive {
        verified := {};
        return Crashed;
      }
      if last {
        verified := verified - {cmd};
      }
      return Done;
    }
  }

  // ---- any sequence of attempts and crashes --------------------------------------------------------

  /** The directory holds nothing but our two names; a final name is complete and a temporary is a prefix. */
  ghost predicate Inv(codec: Codec, s: Fs) {
    && s.WellFormed()
    && (Final in s.names ==> IsPayload(codec, s.Bytes(Final)))
    && (Temp in s.names && Final in s.names ==> s.names[Temp] == s.names[Final])
    && (Temp in s.names ==> exists raw :: IsPayload(codec, raw) && s.Bytes(Temp) <= raw)
  }

  lemma AcceptedIsPayload(codec: Codec, cmd: Command, raw: seq<Byte>)
    requires Faithful(codec) && codec.accepts(cmd, raw)
    ensures IsPayload(codec, raw)
  {
  }

  lemma AttemptKeepsInv(codec: Codec, s: Fs, cmd: Command, now: Timestamp, s': Fs, r: Result)
    requires Faithful(codec) && Inv(codec, s) && AttemptLeaves(codec, s, cmd, now, s', r)
    ensures Inv(codec, s')
    ensures Final in s.names ==>
      Final in s'.names && s'.names[Final] == s.names[Final] && s'.Bytes(Final) == s.Bytes(Final)
  {
    if Final !in s.names && Temp in s.names {
      if codec.accepts(cmd, s.Bytes(Temp)) {
        AcceptedIsPayload(codec, cmd, s.Bytes(Temp));
      }
    } else if Final !in s.names {
      assert IsPayload(codec, Payload(codec, cmd, now));
    }
  }

  /** A history: consecutive directory states, each left by some attempt or by a rejected call. */
  ghost predicate History(codec: Codec, h: seq<Fs>) {
    |h| > 0 && Inv(codec, h[0]) &&
    forall i :: 0 <= i < |h| - 1 ==> h[i].WellFormed() && Advances(codec, h[i], h[i + 1])
  }

  /** At every moment the final name is absent or complete, and a partial temporary is never linked to it. */
  lemma {:induction false} HistoryIsSafe(codec: Codec, h: seq<Fs>, i: nat)
    requires Faithful(codec) && History(codec, h) && i < |h|
    ensures Inv(codec, h[i])
    ensures Final in h[i].names ==> IsPayload(codec, h[i].Bytes(Final))
    ensures Temp in h[i].names && !IsPayload(codec, h[i].Bytes(Temp)) ==> Final !in h[i].names
  {
    if i > 0 {
      HistoryIsSafe(codec, h, i - 1);
      assert Advances(codec, h[i - 1], h[(i - 1) + 1]);
      if h[i] != h[i - 1] {
        var cmd, now, r :| AttemptLeaves(codec, h[i - 1], cmd, now, h[i], r);
        AttemptKeepsInv(codec, h[i - 1], cmd, now, h[i], r);
      }
    }
  }

  /** Once linked, the final name keeps its inode and its bytes for ever. */
  lemma {:induction false} FinalNeverChanges(codec: Codec, h: seq<Fs>, i: nat, j: nat)
    requires Faithful(codec) && History(codec, h) && i <= j < |h|
    requires h[i].WellFormed() && Final in h[i].names
    ensures h[j].WellFormed() && Final in h[j].names
    ensures h[j].names[Final] == h[i].names[Final] && h[j].Bytes(Final) == h[i].Bytes(Final)
    decreases j - i
  {
    HistoryIsSafe(codec, h, i);
    if i < j {
      assert Advances(codec, h[i], h[i + 1]);
      if h[i + 1] != h[i] {
        var cmd, now, r :| AttemptLeaves(codec, h[i], cmd, now, h[i + 1], r);
        AttemptKeepsInv(codec, h[i], cmd, now, h[i + 1], r);
      }
      FinalNeverChanges(codec, h, i + 1, j);
    }
  }

  /** The payload that a successful attempt of cmd must leave behind. */
  ghost function Surviving(codec: Codec, s: Fs, cmd: Command, now: Timestamp): seq<Byte>
    requires s.WellFormed()
  {
    if Final in s.names then s.Bytes(Final)
    else if Temp in s.names then s.Bytes(Temp)
    else Payload(codec, cmd, now)
  }

  /** What a caller can check first: whatever the directory already holds is accepted for this command. */
  ghost predicate Recoverable(codec: Codec, s: Fs, cmd: Command)
    requires s.WellFormed()
  {
    (Final in s.names ==> codec.accepts(cmd, s.Bytes(Final))) &&
    (Temp in s.names && Final !in s.names ==> codec.accepts(cmd, s.Bytes(Temp)))
  }

  /** An attempt that is not cut short succeeds exactly on a recoverable directory, and keeps what survived. */
  lemma RecoversIffRecoverable(codec: Codec, s: Fs, cmd: Command, now: Timestamp, s': Fs, r: Result)
    requires Faithful(codec) && Inv(codec, s) && AttemptLeaves(codec, s, cmd, now, s', r) && r != Crashed
    ensures r == Done <==> Recoverable(codec, s, cmd)
    ensures r == Done ==>
      && s'.WellFormed() && s'.names.Keys == {Final} && s'.LinkCount(s'.names[Final]) == 1
      && s'.Bytes(Final) ==
        (if Final in s.names then s.data[s.names[Final]]
         else if Temp in s.names then s.data[s.names[Temp]] else codec.body(cmd, now) + [10])
      && s'.Bytes(Final) == Surviving(codec, s, cmd, now)
      && codec.accepts(cmd, s'.Bytes(Final))
    ensures r != Done ==> s' == s
  {
    assert codec.accepts(cmd, Payload(codec, cmd, now));
    if r == Done {
      forall n: Name ensures n in s'.names <==> n == Final {
        match n {
          case Temp =>
          case Final =>
        }
      }
    }
  }

  /** Everything in the directory comes from this command: a final name holds what its validation accepts, a temporary
      a prefix of what it writes. */
  ghost predicate OwnedBy(codec: Codec, s: Fs, cmd: Command) {
    && Inv(codec, s)
    && (Final in s.names ==> codec.accepts(cmd, s.Bytes(Final)))
    && (Temp in s.names ==> exists t :: s.Bytes(Temp) <= Payload(codec, cmd, t))
  }

  lemma AttemptKeepsOwner(codec: Codec, s: Fs, cmd: Command, now: Timestamp, s': Fs, r: Result)
    requires Faithful(codec) && OwnedBy(codec, s, cmd) && AttemptLeaves(codec, s, cmd, now, s', r)
    ensures OwnedBy(codec, s', cmd)
  {
    AttemptKeepsInv(codec, s, cmd, now, s', r);
    if Final !in s.names && Temp !in s.names {
      var raw := Payload(codec, cmd, now);
      assert codec.accepts(cmd, raw);
      assert Temp in s'.names ==> s'.Bytes(Temp) <= raw;
    }
  }

  /** Consecutive directory states under attempts of one command, from a directory without either name. */
  ghost predicate OwnHistory(codec: Codec, h: seq<Fs>, cmd: Command) {
    |h| > 0 && h[0].WellFormed() && h[0].names == map[] &&
    forall i :: 0 <= i < |h| - 1 ==> h[i].WellFormed() && AdvancesBy(codec, h[i], cmd, h[i + 1])
  }

  ghost predicate AdvancesBy(codec: Codec, s: Fs, cmd: Command, s': Fs)
    requires s.WellFormed()
  {
    s' == s || exists now, r :: AttemptLeaves(codec, s, cmd, now, s', r)
  }

  lemma {:induction false} OwnHistoryIsOwned(codec: Codec, h: seq<Fs>, cmd: Command, i: nat)
    requires Faithful(codec) && OwnHistory(codec, h, cmd) && i < |h|
    ensures OwnedBy(codec, h[i], cmd)
  {
    hide AttemptLeaves;
    if i > 0 {
      OwnHistoryIsOwned(codec, h, cmd, i - 1);
      assert AdvancesBy(codec, h[i - 1], cmd, h[(i - 1) + 1]);
      if h[i] != h[i - 1] {
        var now, r :| AttemptLeaves(codec, h[i - 1], cmd, now, h[i], r);
        AttemptKeepsOwner(codec, h[i - 1], cmd, now, h[i], r);
      }
    }
  }

  /** A prefix of a payload that is a payload is that payload. */
  lemma PrefixPayloadIsWhole(codec: Codec, raw: seq<Byte>, cmd: Command, t: Timestamp)
    requires Faithful(codec) && raw <= Payload(codec, cmd, t) && IsPayload(codec, raw)
    ensures raw == Payload(codec, cmd, t)
  {
    var whole := Payload(codec, cmd, t);
    assert EndsInOnlyNewline(whole) && EndsInOnlyNewline(raw);
    assert forall i :: 0 <= i < |whole| - 1 ==> whole[i] == whole[..|whole| - 1][i] != NEWLINE;
    assert whole[|raw| - 1] == NEWLINE;
  }

  lemma OwnedRecoversIff(codec: Codec, s: Fs, cmd: Command)
    requires Faithful(codec) && OwnedBy(codec, s, cmd)
    ensures Recoverable(codec, s, cmd) <==> (Temp in s.names ==> IsPayload(codec, s.Bytes(Temp)))
  {
    if Temp in s.names && Final !in s.names && IsPayload(codec, s.Bytes(Temp)) {
      var t :| s.Bytes(Temp) <= Payload(codec, cmd, t);
      PrefixPayloadIsWhole(codec, s.Bytes(Temp), cmd, t);
    }
    if Temp in s.names && codec.accepts(cmd, s.Bytes(Temp)) {
      AcceptedIsPayload(codec, cmd, s.Bytes(Temp));
    }
  }

  /** Wherever the attempts of one command were cut, during a first attempt or during a recovery, the same command
      recovers exactly when no temporary is left or the one that is left is complete. */
  lemma {:induction false} CrashIsRecoverableIffTempComplete(codec: Codec, h: seq<Fs>, cmd: Command, j: nat)
    requires Faithful(codec) && OwnHistory(codec, h, cmd) && j < |h|
    ensures h[j].WellFormed()
    ensures Recoverable(codec, h[j], cmd) <==> (Temp in h[j].names ==> IsPayload(codec, h[j].Bytes(Temp)))
    ensures Recoverable(codec, h[j], cmd) ==>
      forall now :: codec.accepts(cmd, Surviving(codec, h[j], cmd, now))
  {
    hide AttemptLeaves;
    OwnHistoryIsOwned(codec, h, cmd, j);
    OwnedRecoversIff(codec, h[j], cmd);
    forall now ensures codec.accepts(cmd, Surviving(codec, h[j], cmd, now)) || !Recoverable(codec, h[j], cmd) {
      assert codec.accepts(cmd, Payload(codec, cmd, now));
    }
  }

  /** After attempts and crashes of any commands, some command recovers exactly under the same condition. */
  lemma {:induction false} SomeCommandRecoversIff(codec: Codec, h: seq<Fs>, j: nat)
    requires Faithful(codec) && History(codec, h) && j < |h|
    ensures h[j].WellFormed()
    ensures (exists cmd :: Recoverable(codec, h[j], cmd)) <==>
      (Temp in h[j].names ==> IsPayload(codec, h[j].Bytes(Temp)))
  {
    hide History, AttemptLeaves;
    HistoryIsSafe(codec, h, j);
    StateRecoversIff(codec, h[j]);
  }

  lemma StateRecoversIff(codec: Codec, s: Fs)
    requires Faithful(codec) && Inv(codec, s)
    ensures (exists cmd :: Recoverable(codec, s, cmd)) <==> (Temp in s.names ==> IsPayload(codec, s.Bytes(Temp)))
  {
    if Final in s.names {
      var cmd :| codec.accepts(cmd, s.Bytes(Final));
      assert Recoverable(codec, s, cmd);
    } else if Temp in s.names && IsPayload(codec, s.Bytes(Temp)) {
      var cmd :| codec.accepts(cmd, s.Bytes(Temp));
      assert Recoverable(codec, s, cmd);
    } else if Temp in s.names {
      RejectsNonPayload(codec, s.Bytes(Temp));
    } else {
      assert Recoverable(codec, s, 0);
    }
  }

  function EmptyDirectory(): Fs {
    Fs(map[], map[], 0)
  }

  lemma FirstChunk(length: nat, chunk: nat -> nat, k: nat)
    requires 1 <= length && k <= length && chunk(0) == if k == 0 then 0 else k - 1
    ensures Progress(length, chunk, 0, if k == 0 then 0 else 1) == k
  {
    if k > 0 {
      assert (k - 1) % length == k - 1;
      assert Written(length, chunk, 0) == k;
      assert Progress(length, chunk, k, 0) == k;
    }
  }

  /** Every prefix of a payload is what some process leaves that dies in its first system calls, so partial temporaries
      do arise. */
  lemma CrashLeavesAnyPrefix(codec: Codec, cmd: Command, now: Timestamp, k: nat)
    requires k <= |Payload(codec, cmd, now)|
    ensures
      var raw := Payload(codec, cmd, now);
      exists chunk: nat -> nat, calls: nat ::
        calls <= 3 && CutAt(EmptyDirectory(), raw, chunk, calls) == EmptyDirectory().Created(raw[..k])
  {
    var chunk := (offset: nat) => if k == 0 then 0 else k - 1;
    var calls := if k == 0 then 1 else 2;
    FirstChunk(|Payload(codec, cmd, now)|, chunk, k);
    assert CutAt(EmptyDirectory(), Payload(codec, cmd, now), chunk, calls) ==
      EmptyDirectory().Created(Payload(codec, cmd, now)[..k]);
  }

  /** After the crash of a first attempt what survives is the payload of that attempt, timestamp included. */
  lemma FirstCrashKeepsPayload(codec: Codec, s: Fs, cmd: Command, now: Timestamp, s': Fs)
    requires Faithful(codec) && Inv(codec, s) && s.names == map[]
    requires AttemptLeaves(codec, s, cmd, now, s', Crashed)
    ensures s'.WellFormed()
    ensures Recoverable(codec, s', cmd) <==> Temp !in s'.names || |s'.Bytes(Temp)| == |Payload(codec, cmd, now)|
    ensures Recoverable(codec, s', cmd) && s'.names != map[] ==>
      forall later :: Surviving(codec, s', cmd, later) == Payload(codec, cmd, now)
  {
    var raw := Payload(codec, cmd, now);
    assert IsPayload(codec, raw) && codec.accepts(cmd, raw);
    assert raw[..|raw|] == raw;
    if Temp in s'.names && Final !in s'.names {
      var k :| 0 <= k <= |raw| && s' == s.Created(raw[..k]);
      if k < |raw| {
        PayloadsArePrefixFree(codec, raw, k);
        if codec.accepts(cmd, raw[..k]) {
          AcceptedIsPayload(codec, cmd, raw[..k]);
        }
      }
    }
  }

  lemma RejectsNonPayload(codec: Codec, raw: seq<Byte>)
    requires Faithful(codec) && !IsPayload(codec, raw)
    ensures forall cmd :: !codec.accepts(cmd, raw)
  {
  }

  /** A temporary cut short blocks publication for ever: no attempt of any command changes the directory. */
  lemma {:induction false} PartialTempBlocksForEver(codec: Codec, h: seq<Fs>, i: nat, j: nat)
    requires Faithful(codec) && History(codec, h) && i <= j < |h|
    requires h[i].WellFormed() && Temp in h[i].names && !IsPayload(codec, h[i].Bytes(Temp))
    ensures h[j] == h[i]
    decreases j - i
  {
    HistoryIsSafe(codec, h, i);
    if i < j {
      assert Advances(codec, h[i], h[i + 1]);
      RejectsNonPayload(codec, h[i].Bytes(Temp));
      PartialTempBlocksForEver(codec, h, i + 1, j);
    }
  }
}
