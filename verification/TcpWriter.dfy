/** The sender that writes a repeating pattern to a socket as far as the socket lets it. */
module TcpWriter {

  const TOTAL_TX_BYTES: nat := 2000000
  const WRITE_SIZE: nat := 1040

  /** What the socket does in one turn of the loop: the space it reports to the loop condition, the
      space it reports to the computation of the length, and its answer to every length it could be
      asked to send. */
  datatype Answer = Answer(available: nat, availableNow: nat, send: nat -> int)

  /** How a call ends: waiting for a callback, with the socket closed, or still in the loop when no
      more is known of the socket. */
  datatype Outcome = Waiting | Closed | Looping

  /** A socket never accepts more than it was given. */
  ghost predicate Honest(answers: seq<Answer>) {
    forall k, n: nat :: 0 <= k < |answers| ==> answers[k].send(n) <= n
  }

  /** The byte due at a position of the stream. */
  function PatternByte(k: nat): int {
    97 + k % 26
  }

  /** The stream that the receiver should see, up to a length. */
  function Pattern(length: nat): seq<int> {
    seq(length, (k: nat) => PatternByte(k))
  }

  /** The length asked for when `sent` bytes are through. */
  function ToWrite(sent: nat, answer: Answer): (n: nat)
    requires sent < TOTAL_TX_BYTES
    ensures sent % WRITE_SIZE + n <= WRITE_SIZE && sent + n <= TOTAL_TX_BYTES && n <= answer.availableNow
    ensures n > 0 <==> answer.availableNow > 0
  {
    var room := WRITE_SIZE - sent % WRITE_SIZE;
    var wanted := if room < TOTAL_TX_BYTES - sent then room else TOTAL_TX_BYTES - sent;
    if wanted < answer.availableNow then wanted else answer.availableNow
  }

  /** The length asked for is the largest that fits in the rest of the buffer, in what is left to
      send and in the space reported. */
  lemma LargestWrite(sent: nat, answer: Answer, n: nat)
    requires sent < 2000000
    ensures n <= ToWrite(sent, answer) <==>
      sent % 1040 + n <= 1040 && sent + n <= 2000000 && n <= answer.availableNow
  {
  }

  /** The stream goes through the alphabet again and again. */
  lemma PatternLetters(k: nat)
    ensures PatternByte(0) == 'a' as int
    ensures PatternByte(k + 1) == if PatternByte(k) == 'z' as int then 'a' as int else PatternByte(k) + 1
  {
  }

  /** The loop goes on past this turn's condition. */
  predicate Enters(sent: nat, answer: Answer) {
    sent < TOTAL_TX_BYTES && answer.available > 0
  }

  /** The bytes through, and how the call stands, after the given turns from `sent` bytes. */
  ghost function After(sent: nat, answers: seq<Answer>): (r: (nat, Outcome))
    requires sent <= TOTAL_TX_BYTES && Honest(answers)
    ensures sent <= r.0 <= TOTAL_TX_BYTES
    ensures r.1.Looping? ==> r.0 < TOTAL_TX_BYTES
    decreases |answers|
  {
    if sent == TOTAL_TX_BYTES then (sent, Closed)
    else if answers == [] then (sent, Looping)
    else if !Enters(sent, answers[0]) then (sent, Closed)
    else
      var amount := answers[0].send(ToWrite(sent, answers[0]));
      if amount < 0 then (sent, Waiting) else After(sent + amount, answers[1..])
  }

  lemma HeadAndTail<T>(a: seq<T>, b: seq<T>)
    requires a != []
    ensures (a + b)[0] == a[0] && (a + b)[1..] == a[1..] + b
  {
  }

  /** A call that has not sent everything, unrolled once. */
  lemma FirstTurn(sent: nat, answers: seq<Answer>)
    requires sent < TOTAL_TX_BYTES && Honest(answers) && answers != []
    ensures Honest(answers[1..]) && forall n: nat :: answers[0].send(n) <= n
    ensures After(sent, answers)
         == if !Enters(sent, answers[0]) then (sent, Closed)
            else
              var amount := answers[0].send(ToWrite(sent, answers[0]));
              if amount < 0 then (sent, Waiting) else After(sent + amount, answers[1..])
  {
  }

  /** A call with nothing to send closes the socket at once; otherwise it stays in the loop as long
      as no turn is known. */
  lemma NoTurns(sent: nat, answers: seq<Answer>)
    requires sent <= TOTAL_TX_BYTES && Honest(answers)
    ensures sent == TOTAL_TX_BYTES ==> After(sent, answers) == (sent, Closed)
    ensures sent < TOTAL_TX_BYTES && answers == [] ==> After(sent, answers) == (sent, Looping)
  {
  }

  /** What one more turn comes to after turns that left the call in the loop: the call closes the
      socket when there is no space, waits when nothing is accepted, and closes when all is sent. */
  lemma {:induction false} LastTurn(sent: nat, answers: seq<Answer>, last: Answer)
    requires sent <= TOTAL_TX_BYTES && Honest(answers + [last]) && Honest(answers)
    ensures var (through, outcome) := After(sent, answers);
      After(sent, answers + [last])
      == if !outcome.Looping? then (through, outcome)
         else if last.available == 0 then (through, Closed)
         else
           var amount := last.send(ToWrite(through, last));
           if amount < 0 then (through, Waiting)
           else (through + amount, if through + amount == 2000000 then Closed else Looping)
    decreases |answers|
  {
    hide After, ToWrite;
    NoTurns(sent, answers);
    NoTurns(sent, answers + [last]);
    if sent < TOTAL_TX_BYTES {
      FirstTurn(sent, answers + [last]);
      if answers == [] {
        assert answers + [last] == [last] && [last][1..] == [];
        if last.send(ToWrite(sent, last)) >= 0 {
          NoTurns(sent + last.send(ToWrite(sent, last)), []);
        }
      } else {
        HeadAndTail(answers, [last]);
        FirstTurn(sent, answers);
        var amount := answers[0].send(ToWrite(sent, answers[0]));
        if Enters(sent, answers[0]) && amount >= 0 {
          LastTurn(sent + amount, answers[1..], last);
        }
      }
    }
  }

  /** The buffer holds a whole number of alphabets, so wrapping to its start does not show. */
  lemma BufferWraps(sent: nat, i: nat)
    requires sent % WRITE_SIZE + i < WRITE_SIZE
    ensures PatternByte(sent % WRITE_SIZE + i) == PatternByte(sent + i)
  {
  }

  class Writer {
    var currentTxBytes: nat
    const data: array<int>
    /** All bytes that the socket has accepted, in order. */
    ghost var accepted: seq<int>
    var closed: bool

    /** The bytes that went through are the pattern, whatever the cuts between the writes. */
    ghost predicate Valid()
      reads `currentTxBytes, `accepted, data
    {
      && data[..] == Pattern(WRITE_SIZE)
      && currentTxBytes <= TOTAL_TX_BYTES
      && accepted == Pattern(currentTxBytes)
    }

    constructor ()
      ensures Valid() && accepted == [] && !closed && fresh(data)
    {
      currentTxBytes, accepted, closed := 0, [], false;
      data := new int[WRITE_SIZE];
      new;
      for i := 0 to WRITE_SIZE
        invariant data.Length == WRITE_SIZE
        invariant forall k: nat :: k < i ==> data[k] == PatternByte(k)
        invariant currentTxBytes == 0 && accepted == [] && !closed
      {
        data[i] := 97 + i % 26;
      }
    }

    /** Sends a slice that lies within the buffer; the accepted bytes continue the pattern. */
    method Send(offset: nat, toWrite: nat, answer: Answer) returns (amount: int)
      requires Valid() && offset == currentTxBytes % WRITE_SIZE
      requires offset + toWrite <= data.Length && currentTxBytes + toWrite <= TOTAL_TX_BYTES
      requires answer.send(toWrite) <= toWrite
      modifies this`accepted
      ensures amount == answer.send(toWrite)
      ensures amount < 0 ==> accepted == old(accepted)
      ensures amount >= 0 ==>
        accepted == old(accepted) + data[offset..offset + amount] == Pattern(currentTxBytes + amount)
    {
      amount := answer.send(toWrite);
      if amount >= 0 {
        accepted := accepted + data[offset..offset + amount];
        Continues(data[..], currentTxBytes, amount);
      }
    }

    static lemma Continues(buffer: seq<int>, sent: nat, amount: nat)
      requires buffer == Pattern(WRITE_SIZE) && sent % WRITE_SIZE + amount <= WRITE_SIZE
      ensures Pattern(sent) + buffer[sent % WRITE_SIZE..sent % WRITE_SIZE + amount] == Pattern(sent + amount)
    {
      var offset := sent % WRITE_SIZE;
      var joined := Pattern(sent) + buffer[offset..offset + amount];
      forall k: nat | sent <= k < sent + amount
        ensures joined[k] == Pattern(sent + amount)[k]
      {
        BufferWraps(sent, k - sent);
      }
    }

    /** The body of the loop: the length asked for, and the bytes that go through. */
    method Turn(answer: Answer) returns (amountSent: int)
      requires Valid() && Enters(currentTxBytes, answer) && forall n: nat :: answer.send(n) <= n
      modifies this`currentTxBytes, this`accepted
      ensures Valid() && old(accepted) <= accepted && currentTxBytes <= TOTAL_TX_BYTES
      ensures amountSent == answer.send(ToWrite(old(currentTxBytes), answer))
      ensures currentTxBytes == old(currentTxBytes) + if amountSent < 0 then 0 else amountSent
    {
      var left := TOTAL_TX_BYTES - currentTxBytes;
      var dataOffset := currentTxBytes % WRITE_SIZE;
      var toWrite := WRITE_SIZE - dataOffset;
      toWrite := if toWrite < left then toWrite else left;
      toWrite := if toWrite < answer.availableNow then toWrite else answer.availableNow;
      amountSent := Send(dataOffset, toWrite, answer);
      if amountSent < 0 {
        return;
      }
      currentTxBytes := currentTxBytes + amountSent;
    }

    /** One call, while the socket behaves as in `answers`. */
    method WriteUntilBufferFull(answers: seq<Answer>) returns (outcome: Outcome)
      requires Valid() && Honest(answers)
      modifies this
      ensures Valid() && old(accepted) <= accepted
      ensures (currentTxBytes, outcome) == After(old(currentTxBytes), answers)
      ensures closed == (old(closed) || outcome == Closed)
    {
      ghost var whole := After(currentTxBytes, answers);
      var rest := answers;
      assert currentTxBytes <= TOTAL_TX_BYTES;
      hide *;
      while currentTxBytes < TOTAL_TX_BYTES
        invariant currentTxBytes <= TOTAL_TX_BYTES && Valid() && old(accepted) <= accepted && closed == old(closed)
        invariant Honest(rest) && After(currentTxBytes, rest) == whole
        decreases |rest|
      {
        NoTurns(currentTxBytes, rest);
        if rest == [] {
          return Looping;
        }
        FirstTurn(currentTxBytes, rest);
        if rest[0].available == 0 {
          break;
        }
        var amountSent := Turn(rest[0]);
        if amountSent < 0 {
          return Waiting;
        }
        rest := rest[1..];
      }
      NoTurns(currentTxBytes, rest);
      closed := true;
      outcome := Closed;
    }
  }

  lemma {:induction false} AfterAppend(sent: nat, first: seq<Answer>, second: seq<Answer>)
    requires sent <= TOTAL_TX_BYTES && Honest(first) && Honest(second) && Honest(first + second)
    requires After(sent, first).1.Looping?
    ensures After(After(sent, first).0, second) == After(sent, first + second)
    decreases |first|
  {
    hide After, ToWrite;
    NoTurns(sent, first);
    if first == [] {
      assert first + second == second;
    } else {
      HeadAndTail(first, second);
      FirstTurn(sent, first);
      FirstTurn(sent, first + second);
      AfterAppend(sent + first[0].send(ToWrite(sent, first[0])), first[1..], second);
    }
  }

  /** Two calls in which the socket behaves as in `first`, where the first call waits, and then as in
      `second` leave the stream where one call would that did not have to wait. */
  lemma Resumes(sent: nat, first: seq<Answer>, refused: Answer, second: seq<Answer>)
    requires sent <= TOTAL_TX_BYTES && Honest(second)
    requires Honest(first) && Honest(first + [refused]) && Honest(first + second)
    requires After(sent, first).1.Looping? && After(sent, first + [refused]).1.Waiting?
    ensures After(After(sent, first + [refused]).0, second) == After(sent, first + second)
  {
    hide *;
    LastTurn(sent, first, refused);
    AfterAppend(sent, first, second);
  }

  /** The loop gets to turn k, and its condition then finds no space in the socket. */
  ghost predicate RunsDry(sent: nat, answers: seq<Answer>, k: nat)
    requires sent <= TOTAL_TX_BYTES && Honest(answers)
  {
    && k < |answers|
    && After(sent, answers[..k]).1.Looping?
    && answers[k].available == 0
  }

  lemma RunsDryLater(sent: nat, answers: seq<Answer>, k: nat)
    requires sent < TOTAL_TX_BYTES && Honest(answers) && answers != [] && Enters(sent, answers[0])
    ensures var amount := answers[0].send(ToWrite(sent, answers[0]));
      RunsDry(sent, answers, k) <==> k > 0 && amount >= 0 && RunsDry(sent + amount, answers[1..], k - 1)
  {
    if 0 < k < |answers| {
      assert answers[..k][1..] == answers[1..][..k - 1];
      FirstTurn(sent, answers[..k]);
      hide After;
    }
  }

  /** The socket is closed when all is sent, but also at the first turn whose condition finds no
      space, however little has been sent. */
  lemma {:induction false} ClosedIff(sent: nat, answers: seq<Answer>)
    requires sent <= TOTAL_TX_BYTES && Honest(answers)
    ensures After(sent, answers).1.Closed?
       <==> After(sent, answers).0 == TOTAL_TX_BYTES || exists k: nat :: RunsDry(sent, answers, k)
    decreases |answers|
  {
    if sent == TOTAL_TX_BYTES || answers == [] {
      return;
    }
    assert After(sent, answers[..0]).1.Looping?;
    if !Enters(sent, answers[0]) {
      assert RunsDry(sent, answers, 0);
      return;
    }
    var amount := answers[0].send(ToWrite(sent, answers[0]));
    if amount >= 0 {
      ClosedIff(sent + amount, answers[1..]);
    }
    forall k: nat
      ensures RunsDry(sent, answers, k) <==> k > 0 && amount >= 0 && RunsDry(sent + amount, answers[1..], k - 1)
    {
      RunsDryLater(sent, answers, k);
    }
    hide RunsDry;
    if amount >= 0 && After(sent, answers).1.Closed? && After(sent, answers).0 < TOTAL_TX_BYTES {
      var k: nat :| RunsDry(sent + amount, answers[1..], k);
      assert RunsDry(sent, answers, k + 1);
    }
  }

  /** A socket with no space at all is closed before a byte is sent. */
  lemma ClosedTooSoon(answer: Answer)
    requires answer.available == 0 && forall n: nat :: answer.send(n) <= n
    ensures Honest([answer]) && After(0, [answer]) == (0, Closed)
  {
  }
}
