/** The keystroke filter of internal/carbonyl/ptybridge_linux.go: the loop that copies reads from the
    session to the child's terminal and watches for two exit chords, Ctrl+\ (0x1c) and ESC q.

    The reference below never looks at buffers: it is about the stream of typed keys, each with the
    time and the number of the read that delivered it. */
module ChordFilter {
  import opened Common

  type Byte = b: int | 0 <= b < 256

  const ESC_CHORD: Byte := 0x1c
  const ESC: Byte := 0x1b
  const QUIT: Byte := 0x71
  /** 500 ms in nanoseconds. */
  const ESC_Q_TIMEOUT: int := 500_000_000

  /** One return of Stdin().Read: the bytes, the clock, and whether the stream ended. */
  datatype Read = Read(data: seq<Byte>, at: int, closed: bool)

  datatype Exit = Chord | Emergency | Closed | Waiting

  // ----- The stream of keys -----

  datatype Key = Key(byte: Byte, at: int, chunk: nat)

  function Keys(r: Read, chunk: nat): (k: seq<Key>)
    ensures |k| == |r.data|
  {
    seq(|r.data|, i requires 0 <= i < |r.data| => Key(r.data[i], r.at, chunk))
  }

  /** Everything typed in the first `n` reads. */
  function Stream(inputs: seq<Read>, n: nat): seq<Key>
    requires n <= |inputs|
  {
    if n == 0 then [] else Stream(inputs, n - 1) + Keys(inputs[n - 1], n - 1)
  }

  function Bytes(s: seq<Key>): (b: seq<Byte>)
    ensures |b| == |s|
  {
    seq(|s|, i requires 0 <= i < |s| => s[i].byte)
  }

  /** The reads the loop can consume: up to and including the first that ends the stream. */
  function Readable(inputs: seq<Read>): (n: nat)
    ensures n <= |inputs|
    ensures forall i :: 0 <= i < n - 1 ==> !inputs[i].closed
    ensures n < |inputs| ==> n > 0 && inputs[n - 1].closed
  {
    if inputs == [] then 0
    else if inputs[0].closed then 1
    else
      var n := Readable(inputs[1..]);
      assert n < |inputs[1..]| ==> inputs[1..][n - 1] == inputs[n];
      n + 1
  }

  /** ESC and q, adjacent and at most 500 ms apart. */
  predicate ChordAt(s: seq<Key>, i: nat) {
    i + 1 < |s| && s[i].byte == ESC && s[i + 1].byte == QUIT && s[i + 1].at - s[i].at <= 500_000_000
  }

  ghost predicate FirstChord(s: seq<Key>, i: nat) {
    ChordAt(s, i) && forall j: nat :: j < i ==> !ChordAt(s, j)
  }

  ghost predicate NoChord(s: seq<Key>) {
    forall i: nat :: !ChordAt(s, i)
  }

  ghost predicate FirstEmergency(s: seq<Key>, f: nat) {
    f < |s| && s[f].byte == ESC_CHORD && forall j :: 0 <= j < f ==> s[j].byte != ESC_CHORD
  }

  ghost predicate NoEmergency(s: seq<Key>) {
    forall j :: 0 <= j < |s| ==> s[j].byte != ESC_CHORD
  }

  /** The chord at `i` is noticed before the emergency key at `f`: it is complete in an earlier read, or
      it straddles two reads and its q opens the read that holds the emergency key. */
  predicate ChordWins(s: seq<Key>, i: nat, f: nat)
    requires i + 1 < |s| && f < |s|
  {
    s[i + 1].chunk < s[f].chunk || (s[i + 1].chunk == s[f].chunk && s[i].chunk != s[i + 1].chunk)
  }

  /** What reaches the child before the chord at `i`: nothing of it, or its ESC if that came in an
      earlier read. */
  function BeforeChord(s: seq<Key>, i: nat): seq<Key>
    requires i + 1 < |s|
  {
    if s[i].chunk == s[i + 1].chunk then s[..i] else s[..i + 1]
  }

  /** The reference: the loop's answer as a function of the typed stream. */
  ghost predicate Expected(s: seq<Key>, sent: seq<Byte>, exit: Exit) {
    match exit
    case Chord =>
      exists i: nat :: FirstChord(s, i) && sent == Bytes(BeforeChord(s, i))
                  && (NoEmergency(s) || exists f: nat :: FirstEmergency(s, f) && ChordWins(s, i, f))
    case Emergency =>
      exists f: nat :: FirstEmergency(s, f) && sent == Bytes(s[..f])
                  && forall i: nat :: FirstChord(s, i) ==> !ChordWins(s, i, f)
    case _ => NoChord(s) && NoEmergency(s) && sent == Bytes(s)
  }

  // ----- The loop -----

  method IndexByte(buf: seq<Byte>, b: Byte) returns (i: int)
    ensures i >= 0 ==> i < |buf| && buf[i] == b && forall j :: 0 <= j < i ==> buf[j] != b
    ensures i < 0 ==> b !in buf
  {
    i := 0;
    while i < |buf|
      invariant 0 <= i <= |buf| && forall j :: 0 <= j < i ==> buf[j] != b
    {
      if buf[i] == b {
        return;
      }
      i := i + 1;
    }
    i := -1;
  }

  predicate EscQAt(buf: seq<Byte>, i: int) {
    0 <= i && i + 1 < |buf| && buf[i] == ESC && buf[i + 1] == QUIT
  }

  method IndexEscQ(buf: seq<Byte>) returns (i: int)
    ensures i >= 0 ==> EscQAt(buf, i) && forall j :: 0 <= j < i ==> !EscQAt(buf, j)
    ensures i < 0 ==> forall j :: !EscQAt(buf, j)
  {
    i := 0;
    while i + 1 < |buf|
      invariant 0 <= i && forall j :: 0 <= j < i ==> !EscQAt(buf, j)
      decreases |buf| - i
    {
      if buf[i] == ESC && buf[i + 1] == QUIT {
        return;
      }
      i := i + 1;
    }
    i := -1;
  }

  lemma {:induction false} ReadableAtLeast(inputs: seq<Read>, m: nat)
    requires m < |inputs| && forall i :: 0 <= i < m ==> !inputs[i].closed
    ensures Readable(inputs) >= m + 1 && (inputs[m].closed ==> Readable(inputs) == m + 1)
  {
    if m > 0 {
      ReadableAtLeast(inputs[1..], m - 1);
    }
  }

  /** No chord straddles the end of `s` and the start of the next read. */
  predicate NoStraddle(s: seq<Key>, r: Read) {
    (s != [] && r.data != [] && s[|s| - 1].byte == ESC && r.data[0] == QUIT)
    ==> r.at - s[|s| - 1].at > ESC_Q_TIMEOUT
  }

  /** The keys before a read hold no chord, so a chord lies at the boundary or inside the read. */
  lemma ChordsOfRead(s: seq<Key>, r: Read, m: nat, i: nat)
    requires NoChord(s)
    ensures ChordAt(s + Keys(r, m), i)
            <==> || (i + 1 == |s| && !NoStraddle(s, r))
                 || (i >= |s| && EscQAt(r.data, i - |s|))
  {
    var t := s + Keys(r, m);
    if i + 1 < |s| {
      assert ChordAt(t, i) <==> ChordAt(s, i);
    }
  }

  lemma EmergenciesOfRead(s: seq<Key>, r: Read, m: nat, f: nat)
    requires NoEmergency(s)
    ensures FirstEmergency(s + Keys(r, m), f)
            <==> |s| <= f < |s| + |r.data| && r.data[f - |s|] == ESC_CHORD
                 && forall j :: 0 <= j < f - |s| ==> r.data[j] != ESC_CHORD
  {
    var t := s + Keys(r, m);
    if FirstEmergency(t, f) {
      if |s| <= f {
        forall j | 0 <= j < f - |s| ensures r.data[j] != ESC_CHORD {
          assert t[|s| + j].byte == r.data[j];
        }
      }
    }
  }

  /** What the loop knows about the keys it has forwarded. */
  ghost predicate Forwarded(s: seq<Key>, n: nat, sent: seq<Byte>, pending: Option<int>) {
    && sent == Bytes(s) && NoChord(s) && NoEmergency(s)
    && (forall i :: 0 <= i < |s| ==> s[i].chunk < n)
    && (pending.Some? <==> s != [] && s[|s| - 1].byte == ESC)
    && (pending.Some? ==> pending.value == s[|s| - 1].at)
  }

  lemma CrossReadChord(s: seq<Key>, r: Read, m: nat, sent: seq<Byte>, pending: Option<int>)
    requires Forwarded(s, m, sent, pending) && r.data != []
    requires pending.Some? && r.at - pending.value <= ESC_Q_TIMEOUT && r.data[0] == QUIT
    ensures Expected(s + Keys(r, m), sent, Chord)
  {
    var t, i := s + Keys(r, m), |s| - 1;
    forall j: nat | j < i ensures !ChordAt(t, j) {
      ChordsOfRead(s, r, m, j);
    }
    ChordsOfRead(s, r, m, i);
    assert FirstChord(t, i) && BeforeChord(t, i) == s;
    if !NoEmergency(t) {
      var f := SomeFirstEmergency(t);
      EmergenciesOfRead(s, r, m, f);
      assert ChordWins(t, i, f);
    }
  }

  lemma {:induction false} SomeFirstEmergency(s: seq<Key>) returns (f: nat)
    requires !NoEmergency(s)
    ensures FirstEmergency(s, f)
  {
    var n := |s| - 1;
    if NoEmergency(s[..n]) {
      f := n;
      forall j | 0 <= j < n ensures s[j].byte != ESC_CHORD {
        assert s[..n][j] == s[j];
      }
    } else {
      f := SomeFirstEmergency(s[..n]);
      forall j | 0 <= j < f ensures s[j].byte != ESC_CHORD {
        assert s[..n][j] == s[j];
      }
    }
  }

  lemma NoStraddleWithoutPending(s: seq<Key>, r: Read, m: nat, sent: seq<Byte>, pending: Option<int>)
    requires Forwarded(s, m, sent, pending) && r.data != []
    requires !(pending.Some? && r.at - pending.value <= ESC_Q_TIMEOUT && r.data[0] == QUIT)
    ensures NoStraddle(s, r)
  {
  }

  lemma EmergencyInRead(s: seq<Key>, r: Read, m: nat, sent: seq<Byte>, pending: Option<int>, k: nat)
    requires Forwarded(s, m, sent, pending) && NoStraddle(s, r)
    requires k < |r.data| && r.data[k] == ESC_CHORD && forall j :: 0 <= j < k ==> r.data[j] != ESC_CHORD
    ensures Expected(s + Keys(r, m), sent + r.data[..k], Emergency)
  {
    var t, f := s + Keys(r, m), |s| + k;
    EmergenciesOfRead(s, r, m, f);
    forall i: nat | FirstChord(t, i) ensures !ChordWins(t, i, f) {
      ChordsOfRead(s, r, m, i);
    }
    assert Bytes(t[..f]) == Bytes(s) + r.data[..k];
  }

  lemma ChordInRead(s: seq<Key>, r: Read, m: nat, sent: seq<Byte>, pending: Option<int>, k: nat)
    requires Forwarded(s, m, sent, pending) && NoStraddle(s, r)
    requires ESC_CHORD !in r.data && EscQAt(r.data, k) && forall j :: 0 <= j < k ==> !EscQAt(r.data, j)
    ensures Expected(s + Keys(r, m), sent + r.data[..k], Chord)
  {
    var t, i := s + Keys(r, m), |s| + k;
    forall j: nat | j <= i ensures ChordAt(t, j) <==> j == i {
      ChordsOfRead(s, r, m, j);
    }
    assert FirstChord(t, i);
    assert Bytes(t[..i]) == Bytes(s) + r.data[..k];
    assert NoEmergency(t);
  }

  lemma NothingInRead(s: seq<Key>, r: Read, m: nat, sent: seq<Byte>, pending: Option<int>)
    requires Forwarded(s, m, sent, pending) && NoStraddle(s, r) && r.data != []
    requires ESC_CHORD !in r.data && forall j :: !EscQAt(r.data, j)
    ensures Forwarded(s + Keys(r, m), m + 1, sent + r.data,
                      if r.data[|r.data| - 1] == ESC then Some(r.at) else None)
  {
    forall i: nat ensures !ChordAt(s + Keys(r, m), i) {
      ChordsOfRead(s, r, m, i);
    }
  }

  /** The body of the loop for one read: what has been sent, the pending ESC, and a chord if one is
      complete. */
  method HandleRead(r: Read, ghost m: nat, ghost s: seq<Key>, sent: seq<Byte>, pending: Option<int>)
    returns (out: seq<Byte>, next: Option<int>, exit: Option<Exit>)
    requires Forwarded(s, m, sent, pending)
    ensures exit.None? ==> Forwarded(s + Keys(r, m), m + 1, out, next)
    ensures exit.Some? ==> exit.value in {Chord, Emergency} && Expected(s + Keys(r, m), out, exit.value)
  {
    var buf := r.data;
    if |buf| == 0 {
      assert s + Keys(r, m) == s;
      return sent, pending, None;
    }
    if pending.Some? && r.at - pending.value <= ESC_Q_TIMEOUT && buf[0] == QUIT {
      CrossReadChord(s, r, m, sent, pending);
      return sent, pending, Some(Chord);
    }
    NoStraddleWithoutPending(s, r, m, sent, pending);
    var i := IndexByte(buf, ESC_CHORD);
    if i >= 0 {
      EmergencyInRead(s, r, m, sent, pending, i);
      return if i > 0 then sent + buf[..i] else sent, None, Some(Emergency);
    }
    i := IndexEscQ(buf);
    if i >= 0 {
      ChordInRead(s, r, m, sent, pending, i);
      return if i > 0 then sent + buf[..i] else sent, None, Some(Chord);
    }
    NothingInRead(s, r, m, sent, pending);
    out, next, exit := sent + buf, None, None;
    if buf[|buf| - 1] == ESC {
      next := Some(r.at);
    }
  }

  /** The loop's state before read `m`. */
  ghost predicate Reading(inputs: seq<Read>, m: nat, sent: seq<Byte>, pending: Option<int>) {
    && m <= |inputs| && (forall i :: 0 <= i < m ==> !inputs[i].closed)
    && Forwarded(Stream(inputs, m), m, sent, pending)
  }

  /** One turn of the loop. */
  method CopyRead(inputs: seq<Read>, m: nat, sent: seq<Byte>, pending: Option<int>)
    returns (out: seq<Byte>, next: Option<int>, exit: Option<Exit>)
    requires Reading(inputs, m, sent, pending) && m < |inputs|
    ensures exit.None? ==> Reading(inputs, m + 1, out, next)
    ensures exit.Some? ==> exit.value != Waiting && Expected(Stream(inputs, Readable(inputs)), out, exit.value)
    ensures exit == Some(Closed) ==> Readable(inputs) > 0 && inputs[Readable(inputs) - 1].closed
  {
    ReadableAtLeast(inputs, m);
    out, next, exit := HandleRead(inputs[m], m, Stream(inputs, m), sent, pending);
    if exit.Some? {
      LaterReadsDoNotMatter(inputs, m + 1, out, exit.value);
    } else if inputs[m].closed {
      NothingHappened(Stream(inputs, m + 1), m + 1, out, next);
      exit := Some(Closed);
    }
  }

  /** The copying loop: what it sends and how it ends is the reference's answer for the readable stream. */
  method CopyKeys(inputs: seq<Read>) returns (sent: seq<Byte>, exit: Exit)
    ensures Expected(Stream(inputs, Readable(inputs)), sent, exit)
    ensures exit == Closed ==> Readable(inputs) > 0 && inputs[Readable(inputs) - 1].closed
    ensures exit == Waiting ==> Readable(inputs) == |inputs| && forall i :: 0 <= i < |inputs| ==> !inputs[i].closed
  {
    sent := [];
    var pending: Option<int> := None;
    var m := 0;
    while m < |inputs|
      invariant Reading(inputs, m, sent, pending)
    {
      var ended;
      sent, pending, ended := CopyRead(inputs, m, sent, pending);
      if ended.Some? {
        return sent, ended.value;
      }
      m := m + 1;
    }
    exit := Waiting;
    AllReadable(inputs);
    NothingHappened(Stream(inputs, m), m, sent, pending);
  }

  lemma NothingHappened(s: seq<Key>, n: nat, sent: seq<Byte>, pending: Option<int>)
    requires Forwarded(s, n, sent, pending)
    ensures Expected(s, sent, Closed) && Expected(s, sent, Waiting)
  {
  }

  /** Keys come in read order. */
  ghost predicate InReadOrder(s: seq<Key>) {
    forall i, j :: 0 <= i <= j < |s| ==> s[i].chunk <= s[j].chunk
  }

  lemma {:induction false} StreamInReadOrder(inputs: seq<Read>, n: nat)
    requires n <= |inputs|
    ensures InReadOrder(Stream(inputs, n)) && forall i :: 0 <= i < |Stream(inputs, n)| ==> Stream(inputs, n)[i].chunk < n
  {
    if n > 0 {
      StreamInReadOrder(inputs, n - 1);
    }
  }

  /** A later part of the stream: keys of read `m` and after. */
  lemma {:induction false} StreamSplits(inputs: seq<Read>, m: nat, n: nat) returns (rest: seq<Key>)
    requires m <= n <= |inputs|
    ensures Stream(inputs, n) == Stream(inputs, m) + rest
    ensures forall i :: 0 <= i < |rest| ==> rest[i].chunk >= m
    decreases n
  {
    if m == n {
      rest := [];
    } else {
      var r := StreamSplits(inputs, m, n - 1);
      rest := r + Keys(inputs[n - 1], n - 1);
    }
  }

  lemma LaterReadsDoNotMatter(inputs: seq<Read>, m: nat, sent: seq<Byte>, exit: Exit)
    requires m <= Readable(inputs) && exit in {Chord, Emergency}
    requires Expected(Stream(inputs, m), sent, exit)
    ensures Expected(Stream(inputs, Readable(inputs)), sent, exit)
  {
    var rest := StreamSplits(inputs, m, Readable(inputs));
    StreamInReadOrder(inputs, m);
    if exit == Chord {
      ChordStands(Stream(inputs, m), rest, m, sent);
    } else {
      EmergencyStands(Stream(inputs, m), rest, m, sent);
    }
  }

  lemma ChordStands(s: seq<Key>, rest: seq<Key>, m: nat, sent: seq<Byte>)
    requires Expected(s, sent, Chord)
    requires (forall i :: 0 <= i < |s| ==> s[i].chunk < m) && forall i :: 0 <= i < |rest| ==> rest[i].chunk >= m
    ensures Expected(s + rest, sent, Chord)
  {
    var t := s + rest;
    var i: nat :| FirstChord(s, i) && sent == Bytes(BeforeChord(s, i))
      && (NoEmergency(s) || exists f: nat :: FirstEmergency(s, f) && ChordWins(s, i, f));
    forall j: nat | j <= i ensures ChordAt(t, j) <==> ChordAt(s, j) {
    }
    assert FirstChord(t, i);
    assert BeforeChord(t, i) == BeforeChord(s, i);
    if NoEmergency(s) {
      if !NoEmergency(t) {
        var f := SomeFirstEmergency(t);
        assert f >= |s|;
        assert ChordWins(t, i, f);
      }
    } else {
      var f: nat :| FirstEmergency(s, f) && ChordWins(s, i, f);
      assert FirstEmergency(t, f) && ChordWins(t, i, f);
    }
  }

  lemma EmergencyStands(s: seq<Key>, rest: seq<Key>, m: nat, sent: seq<Byte>)
    requires Expected(s, sent, Emergency)
    requires (forall i :: 0 <= i < |s| ==> s[i].chunk < m) && forall i :: 0 <= i < |rest| ==> rest[i].chunk >= m
    ensures Expected(s + rest, sent, Emergency)
  {
    var t := s + rest;
    var f: nat :| FirstEmergency(s, f) && sent == Bytes(s[..f])
      && forall i: nat :: FirstChord(s, i) ==> !ChordWins(s, i, f);
    assert FirstEmergency(t, f) && t[..f] == s[..f];
    forall i: nat | FirstChord(t, i) ensures !ChordWins(t, i, f) {
      if i + 1 < |s| {
        forall j: nat | j <= i ensures ChordAt(t, j) <==> ChordAt(s, j) {
        }
        assert FirstChord(s, i);
      }
    }
  }

  lemma {:induction false} AllReadable(inputs: seq<Read>)
    requires forall i :: 0 <= i < |inputs| ==> !inputs[i].closed
    ensures Readable(inputs) == |inputs|
  {
    if inputs != [] {
      AllReadable(inputs[1..]);
    }
  }

  // ----- What the reference promises -----

  /** For any chunking and timing: the child gets a prefix of what was typed, without Ctrl+\. */
  lemma SentIsACleanPrefix(s: seq<Key>, sent: seq<Byte>, exit: Exit)
    requires InReadOrder(s) && Expected(s, sent, exit)
    ensures sent <= Bytes(s) && ESC_CHORD !in sent
  {
    if exit == Chord {
      var i: nat :| FirstChord(s, i) && sent == Bytes(BeforeChord(s, i))
        && (NoEmergency(s) || exists f: nat :: FirstEmergency(s, f) && ChordWins(s, i, f));
      if !NoEmergency(s) {
        var f: nat :| FirstEmergency(s, f) && ChordWins(s, i, f);
        assert f > i;
      }
    } else if exit == Emergency {
      var f: nat :| FirstEmergency(s, f) && sent == Bytes(s[..f]);
    }
  }

  ghost predicate FirstEscQ(text: seq<Byte>, i: nat) {
    EscQAt(text, i) && forall j: nat :: j < i ==> !EscQAt(text, j)
  }

  /** No two consecutive keys are more than 500 ms apart. */
  ghost predicate Prompt(s: seq<Key>) {
    forall i :: 0 <= i < |s| - 1 ==> s[i + 1].at - s[i].at <= ESC_Q_TIMEOUT
  }

  /** What was typed in the first `n` reads, whatever the cuts. */
  function Typed(inputs: seq<Read>, n: nat): seq<Byte>
    requires n <= |inputs|
  {
    if n == 0 then [] else Typed(inputs, n - 1) + inputs[n - 1].data
  }

  lemma {:induction false} StreamIsTyped(inputs: seq<Read>, n: nat)
    requires n <= |inputs|
    ensures Bytes(Stream(inputs, n)) == Typed(inputs, n)
  {
    if n > 0 {
      StreamIsTyped(inputs, n - 1);
    }
  }

  ghost predicate Silent(inputs: seq<Read>, from: nat, to: nat)
    requires to <= |inputs|
  {
    forall k :: from < k < to ==> inputs[k].data == []
  }

  /** No read that brings keys comes more than 500 ms after the one before it that did. */
  ghost predicate PromptReads(inputs: seq<Read>, n: nat)
    requires n <= |inputs|
  {
    forall i: nat, j: nat :: i < j < n && Silent(inputs, i, j) ==> inputs[j].at - inputs[i].at <= ESC_Q_TIMEOUT
  }

  /** The last of the first `n` reads that brought a key, -1 if none did. */
  function LastRead(inputs: seq<Read>, n: nat): (i: int)
    requires n <= |inputs|
    ensures -1 <= i < n
    ensures i < 0 <==> Stream(inputs, n) == []
    ensures i >= 0 ==> Silent(inputs, i, n) && Stream(inputs, n)[|Stream(inputs, n)| - 1].at == inputs[i].at
  {
    if n == 0 then -1 else if inputs[n - 1].data != [] then n - 1 else LastRead(inputs, n - 1)
  }

  lemma PromptSplits(s: seq<Key>, r: Read, m: nat)
    requires Prompt(s) && (s != [] && r.data != [] ==> r.at - s[|s| - 1].at <= ESC_Q_TIMEOUT)
    ensures Prompt(s + Keys(r, m))
  {
  }

  lemma {:induction false} PromptReadsArePrompt(inputs: seq<Read>, n: nat)
    requires n <= |inputs| && PromptReads(inputs, n)
    ensures Prompt(Stream(inputs, n))
  {
    if n > 0 {
      PromptReadsArePrompt(inputs, n - 1);
      var i := LastRead(inputs, n - 1);
      assert i >= 0 ==> Silent(inputs, i, n - 1);
      PromptSplits(Stream(inputs, n - 1), inputs[n - 1], n - 1);
    }
  }

  /** Typed promptly and without Ctrl+\: the loop takes the chord exit exactly when ESC q occurs in the
      text, and the child gets the text before the first one, plus at most that one ESC, however the
      text was cut into reads. */
  lemma ChordExitIsEscQ(s: seq<Key>, sent: seq<Byte>, exit: Exit)
    requires Expected(s, sent, exit) && Prompt(s) && NoEmergency(s)
    ensures exit == Chord <==> exists i: nat :: EscQAt(Bytes(s), i)
    ensures forall i: nat :: FirstEscQ(Bytes(s), i) ==> sent == Bytes(s)[..i] || sent == Bytes(s)[..i] + [ESC]
    ensures exit != Chord ==> exit != Emergency && sent == Bytes(s)
  {
    PromptChords(s);
    if exit == Chord {
      var i: nat :| FirstChord(s, i) && sent == Bytes(BeforeChord(s, i));
      assert FirstEscQ(Bytes(s), i);
      BytesBeforeChord(s, i);
      forall j: nat | FirstEscQ(Bytes(s), j) ensures j == i {
        assert !(j < i) && !(i < j);
      }
    }
  }

  lemma PromptChords(s: seq<Key>)
    requires Prompt(s)
    ensures forall i: nat :: ChordAt(s, i) <==> EscQAt(Bytes(s), i)
  {
  }

  lemma BytesBeforeChord(s: seq<Key>, i: nat)
    requires ChordAt(s, i)
    ensures Bytes(BeforeChord(s, i)) == Bytes(s)[..i] || Bytes(BeforeChord(s, i)) == Bytes(s)[..i] + [ESC]
  {
    assert Bytes(s[..i]) == Bytes(s)[..i] && Bytes(s[..i + 1]) == Bytes(s)[..i] + [ESC];
  }

  /** The promise to the user, in the bytes as typed. */
  ghost predicate Keeps(typed: seq<Byte>, sent: seq<Byte>, exit: Exit) {
    && (exit == Chord <==> exists i: nat :: EscQAt(typed, i))
    && (forall i: nat :: FirstEscQ(typed, i) ==> sent == typed[..i] || sent == typed[..i] + [ESC])
    && (exit != Chord ==> exit != Emergency && sent == typed)
  }

  lemma ReferenceKeeps(inputs: seq<Read>, n: nat, sent: seq<Byte>, exit: Exit)
    requires n <= |inputs| && Expected(Stream(inputs, n), sent, exit)
    requires PromptReads(inputs, n) && ESC_CHORD !in Typed(inputs, n)
    ensures Keeps(Typed(inputs, n), sent, exit)
  {
    var s := Stream(inputs, n);
    StreamIsTyped(inputs, n);
    PromptReadsArePrompt(inputs, n);
    forall j | 0 <= j < |s| ensures s[j].byte != ESC_CHORD {
      assert Bytes(s)[j] in Typed(inputs, n);
    }
    ChordExitIsEscQ(s, sent, exit);
  }

  /** What each way out says about the bytes that were typed: Ctrl+\ ends the session after everything before it has
      been sent, ESC q after everything before it (and at most its ESC), and otherwise everything has been sent and
      neither key's exit was due. */
  ghost predicate Explained(typed: seq<Byte>, sent: seq<Byte>, exit: Exit) {
    match exit
    case Emergency => exists f: nat :: f < |typed| && typed[f] == 0x1c && 0x1c !in typed[..f] && sent == typed[..f]
    case Chord => exists i: nat :: EscQAt(typed, i) && (sent == typed[..i] || sent == typed[..i] + [0x1b])
    case _ => sent == typed && 0x1c !in typed
  }

  lemma ReferenceExplains(s: seq<Key>, sent: seq<Byte>, exit: Exit)
    requires Expected(s, sent, exit)
    ensures Explained(Bytes(s), sent, exit)
  {
    match exit
    case Emergency =>
      var f: nat :| FirstEmergency(s, f) && sent == Bytes(s[..f]);
      assert Bytes(s)[..f] == Bytes(s[..f]);
      assert Bytes(s)[f] == 0x1c;
    case Chord =>
      var i: nat :| FirstChord(s, i) && sent == Bytes(BeforeChord(s, i));
      assert EscQAt(Bytes(s), i);
      assert Bytes(s[..i]) == Bytes(s)[..i] && Bytes(s[..i + 1]) == Bytes(s)[..i] + [0x1b];
    case _ =>
  }

  /** For every sequence of reads: the child gets a prefix of the typed bytes without Ctrl+\; and when none
      was typed and the reads were prompt, the exit is the chord's exactly when ESC q was typed. */
  method Bridge(inputs: seq<Read>) returns (sent: seq<Byte>, exit: Exit)
    ensures Expected(Stream(inputs, Readable(inputs)), sent, exit)
    ensures exit == Closed ==> Readable(inputs) > 0 && inputs[Readable(inputs) - 1].closed
    ensures exit == Waiting ==> Readable(inputs) == |inputs| && forall i :: 0 <= i < |inputs| ==> !inputs[i].closed
    ensures sent <= Typed(inputs, Readable(inputs)) && ESC_CHORD !in sent
    ensures Explained(Typed(inputs, Readable(inputs)), sent, exit)
    ensures PromptReads(inputs, Readable(inputs)) && ESC_CHORD !in Typed(inputs, Readable(inputs)) ==>
              Keeps(Typed(inputs, Readable(inputs)), sent, exit)
  {
    sent, exit := CopyKeys(inputs);
    ghost var n := Readable(inputs);
    StreamInReadOrder(inputs, n);
    StreamIsTyped(inputs, n);
    SentIsACleanPrefix(Stream(inputs, n), sent, exit);
    ReferenceExplains(Stream(inputs, n), sent, exit);
    if PromptReads(inputs, n) && ESC_CHORD !in Typed(inputs, n) {
      ReferenceKeeps(inputs, n, sent, exit);
    }
  }

  /** Without Ctrl+\ the answer is fixed up to the ESC of the first chord. */
  lemma AnswerAt(s: seq<Key>, sent: seq<Byte>, exit: Exit, i: nat)
    requires NoEmergency(s) && Expected(s, sent, exit) && FirstChord(s, i)
    ensures exit == Chord && (sent == Bytes(s)[..i] || sent == Bytes(s)[..i] + [ESC])
  {
    assert exit == Chord;
    var k: nat :| FirstChord(s, k) && sent == Bytes(BeforeChord(s, k));
    assert k == i by {
      assert !(k < i) && !(i < k);
    }
    assert Bytes(s[..i]) == Bytes(s)[..i] && Bytes(s[..i + 1]) == Bytes(s)[..i] + [ESC];
  }

  lemma SameChords(s: seq<Key>, t: seq<Key>, i: nat)
    requires |s| == |t| && forall i :: 0 <= i < |s| ==> s[i].byte == t[i].byte && s[i].at == t[i].at
    ensures FirstChord(s, i) <==> FirstChord(t, i)
  {
    forall j: nat ensures ChordAt(s, j) <==> ChordAt(t, j) {
    }
  }

  lemma AnswerWithoutChord(s: seq<Key>, sent: seq<Byte>, exit: Exit)
    requires NoEmergency(s) && Expected(s, sent, exit) && exit != Chord
    ensures sent == Bytes(s) && forall i: nat :: !FirstChord(s, i)
  {
  }

  lemma ChordWitness(s: seq<Key>, sent: seq<Byte>) returns (i: nat)
    requires Expected(s, sent, Chord)
    ensures FirstChord(s, i)
  {
    i :| FirstChord(s, i);
  }

  /** Without Ctrl+\ the way out depends on the keys and their times only, never on the chunks. */
  lemma ChunksDoNotMatter(s: seq<Key>, t: seq<Key>, sent: seq<Byte>, sent': seq<Byte>, exit: Exit, exit': Exit)
    requires |s| == |t| && forall i :: 0 <= i < |s| ==> s[i].byte == t[i].byte && s[i].at == t[i].at
    requires NoEmergency(s) && Expected(s, sent, exit) && Expected(t, sent', exit')
    ensures exit == Chord <==> exit' == Chord
    ensures sent == sent' || sent == sent' + [ESC] || sent' == sent + [ESC]
  {
    assert Bytes(s) == Bytes(t) && NoEmergency(t);
    if exit == Chord {
      var i := ChordWitness(s, sent);
      SameChords(s, t, i);
      AnswerAt(s, sent, exit, i);
      AnswerAt(t, sent', exit', i);
    } else {
      AnswerWithoutChord(s, sent, exit);
      if exit' == Chord {
        var i := ChordWitness(t, sent');
        SameChords(s, t, i);
      } else {
        AnswerWithoutChord(t, sent', exit');
      }
    }
  }
}
