/** The exploit runner of cmd/crashme/main.go: the reader of the first line
    a client sends, the name of the binary it runs, the bounded retry of
    the flag request and the budget of failed accepts in the server loop.
    The connection is the sequence of results its one-byte reads give; the
    flag service and the listener are parameters. */
module Crashme {
  import opened Wrappers
  import opened Text
  import Client

  // ------------------------------------------------------------ first line

  const MaxFirstLineSize := 100
  const TooLongFirstLine := "Too long first line"
  const EofBeforeNewLine := "EOF before new line"

  /** One `Read` into the one-byte buffer: a byte, a read of no byte and
      no error, the end of the input, or another error. */
  datatype ReadResult = Byte(b: char) | Short | Eof | ReadError(msg: string)

  /** A read that adds a byte and does not end the line. */
  predicate Plain(r: ReadResult) {
    r.Byte? && r.b != '\n'
  }

  predicate PlainBytes(input: seq<ReadResult>, k: nat) {
    k <= |input| && forall j :: 0 <= j < k ==> Plain(input[j])
  }

  predicate AllBytes(input: seq<ReadResult>, k: nat) {
    k <= |input| && forall j :: 0 <= j < k ==> input[j].Byte?
  }

  function ByteOf(r: ReadResult): char {
    if r.Byte? then r.b else ' '
  }

  /** The bytes of the first `k` reads. */
  function BytesOf(input: seq<ReadResult>, k: nat): (s: string)
    requires k <= |input|
    ensures |s| == k && forall j :: 0 <= j < k ==> s[j] == ByteOf(input[j])
  {
    var prefix := input[..k];
    seq(k, j requires 0 <= j < |prefix| => ByteOf(prefix[j]))
  }

  /** How many reads in a row give a byte other than a newline. */
  function Stop(input: seq<ReadResult>): (k: nat)
    ensures PlainBytes(input, k)
    ensures k < |input| ==> !Plain(input[k])
  {
    if input == [] || !Plain(input[0]) then 0
    else
      var k := 1 + Stop(input[1..]);
      assert forall j :: 1 <= j < k ==> input[j] == input[1..][j - 1];
      k
  }

  lemma StopIs(input: seq<ReadResult>, k: nat)
    requires PlainBytes(input, k) && (k < |input| ==> !Plain(input[k]))
    ensures Stop(input) == k
  {
  }

  /** The outcome of reading the first line: the read that ends the run of
      plain bytes decides it. A newline gives the bytes read so far, with
      the newline, trimmed of white space; the end of the input or a short
      read gives "Too long first line" exactly when 100 bytes were read,
      and "EOF before new line" otherwise; another error is returned as it
      is. Reading past the given reads finds the end of the input. */
  function FirstLine(input: seq<ReadResult>): Result<string> {
    var k := Stop(input);
    LineEnd(if k < |input| then input[k] else Eof, BytesOf(input, k))
  }

  /** The outcome once `next` ends the run of plain `bytes`. */
  function LineEnd(next: ReadResult, bytes: string): Result<string> {
    match next
    case Byte(_) => Success(TrimSpace(bytes + "\n"))
    case ReadError(msg) => Failure(msg)
    case _ => Failure(if |bytes| == MaxFirstLineSize then TooLongFirstLine else EofBeforeNewLine)
  }

  /** `slowReadFirstLine`: reads one byte at a time until a newline. */
  method SlowReadFirstLine(input: seq<ReadResult>) returns (r: Result<string>)
    ensures r == FirstLine(input)
  {
    var str := "";
    var last := ' ';
    var i := 0;
    while last != '\n'
      invariant AllBytes(input, i) && str == BytesOf(input, i)
      invariant last != '\n' ==> PlainBytes(input, i)
      invariant last == '\n' ==> 1 <= i && PlainBytes(input, i - 1) && input[i - 1] == Byte('\n')
      decreases |input| - i
    {
      var next := if i < |input| then input[i] else Eof;
      if next.Eof? || next.Short? {
        StopIs(input, i);
        if |str| == MaxFirstLineSize {
          return Failure(TooLongFirstLine);
        }
        return Failure(EofBeforeNewLine);
      }
      if next.ReadError? {
        StopIs(input, i);
        return Failure(next.msg);
      }
      str := str + [next.b];
      last := next.b;
      i := i + 1;
    }
    StopIs(input, i - 1);
    assert str == BytesOf(input, i - 1) + "\n";
    return Success(TrimSpace(str));
  }

  /** `io.LimitReader(r, n)` seen through one-byte reads: the reads of `r`
      until `n` bytes were delivered, then the end of the input. */
  function Limit(input: seq<ReadResult>, n: nat): seq<ReadResult> {
    if n == 0 || input == [] then []
    else [input[0]] + Limit(input[1..], if input[0].Byte? then n - 1 else n)
  }

  /** Before `n` bytes were delivered the limited reader passes the reads on. */
  lemma {:induction false} LimitAgrees(input: seq<ReadResult>, n: nat, i: nat)
    requires i < n && i < |input| && AllBytes(input, i)
    ensures i < |Limit(input, n)| && Limit(input, n)[i] == input[i]
    decreases i
  {
    if i > 0 {
      LimitAgrees(input[1..], n - 1, i - 1);
    }
  }

  /** After `n` bytes the limited reader has nothing more. */
  lemma {:induction false} LimitEnds(input: seq<ReadResult>, n: nat)
    requires AllBytes(input, n)
    ensures |Limit(input, n)| == n
    decreases n
  {
    if n > 0 {
      LimitEnds(input[1..], n - 1);
    }
  }

  /** The first line as the runner reads it, through a reader limited to
      100 bytes: a line that ends within 100 bytes reads as it would
      without the limit, and any other input is "Too long first line". */
  lemma LimitedFirstLine(input: seq<ReadResult>)
    ensures Stop(input) < MaxFirstLineSize ==> FirstLine(Limit(input, MaxFirstLineSize)) == FirstLine(input)
    ensures Stop(input) >= MaxFirstLineSize ==> FirstLine(Limit(input, MaxFirstLineSize)) == Failure(TooLongFirstLine)
  {
    if Stop(input) < MaxFirstLineSize {
      if Stop(input) < |input| {
        LimitedLineEnds(input, MaxFirstLineSize);
      } else {
        LimitShort(input, MaxFirstLineSize);
      }
    } else {
      LimitedLongLine(input);
    }
  }

  lemma LimitedLineEnds(input: seq<ReadResult>, n: nat)
    requires Stop(input) < n && Stop(input) < |input|
    ensures FirstLine(Limit(input, n)) == FirstLine(input)
  {
    var limited := Limit(input, n);
    var k := Stop(input);
    forall i | 0 <= i <= k
      ensures i < |limited| && limited[i] == input[i]
    {
      LimitAgrees(input, n, i);
    }
    FirstLineOfPrefix(input, limited, k);
  }

  /** The first line depends only on the reads up to the one that ends it. */
  lemma FirstLineOfPrefix(a: seq<ReadResult>, b: seq<ReadResult>, k: nat)
    requires k < |a| && k < |b| && Stop(a) == k
    requires forall i :: 0 <= i <= k ==> a[i] == b[i]
    ensures FirstLine(a) == FirstLine(b)
  {
    StopIs(b, k);
    var x, y := BytesOf(a, k), BytesOf(b, k);
    assert x == y;
  }

  lemma LimitedLongLine(input: seq<ReadResult>)
    requires Stop(input) >= MaxFirstLineSize
    ensures FirstLine(Limit(input, MaxFirstLineSize)) == Failure(TooLongFirstLine)
  {
    var limited := Limit(input, MaxFirstLineSize);
    forall i | 0 <= i < MaxFirstLineSize
      ensures i < |limited| && limited[i] == input[i]
    {
      LimitAgrees(input, MaxFirstLineSize, i);
    }
    LimitEnds(input, MaxFirstLineSize);
    StopIs(limited, MaxFirstLineSize);
  }

  /** Input shorter than the limit, all bytes, passes whole. */
  lemma {:induction false} LimitShort(input: seq<ReadResult>, n: nat)
    requires |input| < n && AllBytes(input, |input|)
    ensures Limit(input, n) == input
    decreases |input|
  {
    if input != [] {
      LimitShort(input[1..], n - 1);
    }
  }

  // ------------------------------------------------------------ executable

  /** `strings.ReplaceAll(task, "-", "_")`. */
  function DashesToUnderscores(task: string): (r: string)
    ensures |r| == |task|
    ensures forall i :: 0 <= i < |task| ==> r[i] == (if task[i] == '-' then '_' else task[i])
  {
    seq(|task|, i requires 0 <= i < |task| => if task[i] == '-' then '_' else task[i])
  }

  /** The file name of a task's binary in the binaries directory. */
  function ExecutableName(task: string): (name: string)
    ensures |name| == |task| + 4 && name[..4] == "ctf_"
    ensures '-' !in name
    ensures forall i :: 0 <= i < |task| ==> task[i] != '-' ==> name[i + 4] == task[i]
  {
    "ctf_" + DashesToUnderscores(task)
  }

  /** Tasks that differ only in dashes and underscores run the same binary. */
  lemma ExecutableNameMerges(a: string, b: string)
    requires |a| == |b|
    requires forall i :: 0 <= i < |a| ==> a[i] == b[i] || (a[i] in "-_" && b[i] in "-_")
    ensures ExecutableName(a) == ExecutableName(b)
  {
    assert DashesToUnderscores(a) == DashesToUnderscores(b);
  }

  // ------------------------------------------------------------ flag fetch

  const ServerError := "Server error: "

  /** `doFetchFlag`: a failed exchange as it is, a reply that is not ok as
      "Server error: " and the server's message, otherwise the flag. */
  function DoFetchFlag(reply: Result<Client.Reply<string>>): (r: Result<string>)
    ensures r.Success? <==> reply.Success? && reply.value.ok
    ensures r.Success? ==> r.value == reply.value.body
    ensures reply.Success? && !reply.value.ok ==> r.error == ServerError + reply.value.error
  {
    Client.Unwrap(reply, ServerError)
  }

  const FetchAttempts := 6

  /** `fetchFlag`: `attempt(k)` is what the `k`-th call of `doFetchFlag`
      gives. The first success is returned; after six failures, the sixth
      error. The pause between attempts is left out. */
  method FetchFlag(attempt: nat -> Result<string>) returns (r: Result<string>, calls: nat)
    ensures 1 <= calls <= FetchAttempts
    ensures forall k :: 0 <= k < calls - 1 ==> attempt(k).Failure?
    ensures r == attempt(calls - 1)
    ensures r.Failure? ==> calls == FetchAttempts
  {
    var iterations := 5;
    calls := 0;
    while true
      invariant 0 <= iterations <= 5 && calls == 5 - iterations
      invariant forall k :: 0 <= k < calls ==> attempt(k).Failure?
      decreases iterations
    {
      var flag := attempt(calls);
      calls := calls + 1;
      if flag.Success? || iterations <= 0 {
        return flag, calls;
      }
      iterations := iterations - 1;
    }
  }

  // ------------------------------------------------------------ accepting

  const AcceptErrorsBudget := 10

  /** The budget after one accept; None is the panic of a failure with no
      budget left. */
  function NextBudget(budget: int, accepted: bool): Option<int> {
    if !accepted then (if budget == 0 then None else Some(budget - 1))
    else Some(if budget < AcceptErrorsBudget then budget + 1 else budget)
  }

  /** The budget after a run of accepts, or None when the run panics. */
  function RunBudget(budget: int, accepted: seq<bool>): Option<int>
    decreases |accepted|
  {
    if accepted == [] then Some(budget)
    else
      var next := NextBudget(budget, accepted[0]);
      if next.None? then None else RunBudget(next.value, accepted[1..])
  }

  /** How many accepts of a run are handled before it panics. */
  function Processed(budget: int, accepted: seq<bool>): (n: nat)
    ensures n <= |accepted|
    ensures n < |accepted| <==> RunBudget(budget, accepted).None?
    decreases |accepted|
  {
    if accepted == [] then 0
    else
      var next := NextBudget(budget, accepted[0]);
      if next.None? then 0 else 1 + Processed(next.value, accepted[1..])
  }

  function Failures(accepted: seq<bool>): nat {
    multiset(accepted)[false]
  }

  /** The budget stays within [0, 10]. */
  lemma {:induction false} RunBudgetBounds(budget: int, accepted: seq<bool>)
    requires 0 <= budget <= AcceptErrorsBudget
    ensures RunBudget(budget, accepted).Some? ==> 0 <= RunBudget(budget, accepted).value <= AcceptErrorsBudget
    decreases |accepted|
  {
    if accepted != [] && NextBudget(budget, accepted[0]).Some? {
      RunBudgetBounds(NextBudget(budget, accepted[0]).value, accepted[1..]);
    }
  }

  /** No more failures than the budget never panics. */
  lemma {:induction false} FewFailuresNeverPanic(budget: int, accepted: seq<bool>)
    requires 0 <= budget && Failures(accepted) <= budget
    ensures RunBudget(budget, accepted).Some?
    decreases |accepted|
  {
    if accepted != [] {
      assert accepted == [accepted[0]] + accepted[1..];
      FewFailuresNeverPanic(NextBudget(budget, accepted[0]).value, accepted[1..]);
    }
  }

  /** More failures in a row than the budget panic. */
  lemma {:induction false} FailureRunPanics(budget: int, n: nat, rest: seq<bool>)
    requires 0 <= budget < n
    ensures RunBudget(budget, seq(n, _ => false) + rest).None?
    decreases n
  {
    var run := seq(n, _ => false) + rest;
    if budget > 0 {
      assert run[1..] == seq(n - 1, _ => false) + rest;
      FailureRunPanics(budget - 1, n - 1, rest);
    }
  }

  /** Which accepts succeeded. */
  function Accepted(accepts: seq<Option<nat>>): (r: seq<bool>)
    ensures |r| == |accepts| && forall i :: 0 <= i < |r| ==> r[i] == accepts[i].Some?
  {
    seq(|accepts|, i requires 0 <= i < |accepts| => accepts[i].Some?)
  }

  lemma AcceptedSuffix(accepts: seq<Option<nat>>, i: nat)
    requires i < |accepts|
    ensures Accepted(accepts[i..]) == [accepts[i].Some?] + Accepted(accepts[i + 1..])
  {
  }

  /** One accept of the loop: the budget and the count of handled accepts
      of the rest follow from those after it. */
  lemma AcceptStep(budget: int, accepts: seq<Option<nat>>, i: nat)
    requires i < |accepts|
    ensures var next := NextBudget(budget, accepts[i].Some?);
      RunBudget(budget, Accepted(accepts[i..])) ==
        (if next.None? then None else RunBudget(next.value, Accepted(accepts[i + 1..])))
      && Processed(budget, Accepted(accepts[i..])) ==
        (if next.None? then 0 else 1 + Processed(next.value, Accepted(accepts[i + 1..])))
  {
    AcceptedSuffix(accepts, i);
    var rest := Accepted(accepts[i..]);
    assert rest[0] == accepts[i].Some? && rest[1..] == Accepted(accepts[i + 1..]);
  }

  /** A handler the loop starts: the accepted connection, or none when the
      accept failed, and the connection number. */
  datatype Spawn = Spawn(conn: Option<nat>, connId: nat)

  /** What the loop as written starts: one handler per handled accept,
      failed or not, numbered in order. */
  function SpawnedAsWritten(accepts: seq<Option<nat>>): seq<Spawn> {
    var n := Processed(AcceptErrorsBudget, Accepted(accepts));
    seq(n, i requires 0 <= i < n && n <= |accepts| => Spawn(accepts[i], i))
  }

  /** The loop of `main` as written: after a failed accept that does not
      panic it still starts a handler, on a nil connection. `accepts[i]` is
      the `i`-th result of `Accept`. */
  method ServeAsWritten(accepts: seq<Option<nat>>) returns (budget: int, panicked: bool, spawned: seq<Spawn>)
    ensures panicked <==> RunBudget(AcceptErrorsBudget, Accepted(accepts)).None?
    ensures !panicked ==> budget == RunBudget(AcceptErrorsBudget, Accepted(accepts)).value
    ensures spawned == SpawnedAsWritten(accepts)
  {
    budget := AcceptErrorsBudget;
    spawned := [];
    var connId := 0;
    for i := 0 to |accepts|
      invariant |spawned| == i && connId == i
      invariant forall k :: 0 <= k < i ==> spawned[k] == Spawn(accepts[k], k)
      invariant RunBudget(AcceptErrorsBudget, Accepted(accepts)) == RunBudget(budget, Accepted(accepts[i..]))
      invariant Processed(AcceptErrorsBudget, Accepted(accepts)) == i + Processed(budget, Accepted(accepts[i..]))
    {
      AcceptStep(budget, accepts, i);
      ghost var before := budget;
      if accepts[i].None? {
        if budget == 0 {
          return budget, true, spawned;
        }
        budget := budget - 1;
      } else if budget < AcceptErrorsBudget {
        budget := budget + 1;
      }
      assert NextBudget(before, accepts[i].Some?) == Some(budget);
      spawned := spawned + [Spawn(accepts[i], connId)];
      connId := connId + 1;
    }
    return budget, false, spawned;
  }

  /** The connections among the accepts, in order. */
  function Connections(accepts: seq<Option<nat>>): seq<nat> {
    if accepts == [] then []
    else
      var last := accepts[|accepts| - 1];
      Connections(accepts[..|accepts| - 1]) + (if last.Some? then [last.value] else [])
  }

  lemma ConnectionsStep(accepts: seq<Option<nat>>, i: nat)
    requires i < |accepts|
    ensures Connections(accepts[..i + 1]) ==
      Connections(accepts[..i]) + (if accepts[i].Some? then [accepts[i].value] else [])
  {
    assert accepts[..i + 1][..i] == accepts[..i];
  }

  /** What the intended loop starts: one handler per accepted connection
      among the handled accepts, numbered in order. */
  function SpawnedCorrected(accepts: seq<Option<nat>>): seq<Spawn> {
    var n := Processed(AcceptErrorsBudget, Accepted(accepts));
    var conns := Connections(accepts[..if n <= |accepts| then n else 0]);
    seq(|conns|, j requires 0 <= j < |conns| => Spawn(Some(conns[j]), j))
  }

  /** The intended loop: a failed accept only spends budget and starts no
      handler. */
  method Serve(accepts: seq<Option<nat>>) returns (budget: int, panicked: bool, spawned: seq<Spawn>)
    ensures panicked <==> RunBudget(AcceptErrorsBudget, Accepted(accepts)).None?
    ensures !panicked ==> budget == RunBudget(AcceptErrorsBudget, Accepted(accepts)).value
    ensures spawned == SpawnedCorrected(accepts)
  {
    budget := AcceptErrorsBudget;
    spawned := [];
    var connId := 0;
    for i := 0 to |accepts|
      invariant |spawned| == connId == |Connections(accepts[..i])|
      invariant forall j :: 0 <= j < |spawned| ==> spawned[j] == Spawn(Some(Connections(accepts[..i])[j]), j)
      invariant RunBudget(AcceptErrorsBudget, Accepted(accepts)) == RunBudget(budget, Accepted(accepts[i..]))
      invariant Processed(AcceptErrorsBudget, Accepted(accepts)) == i + Processed(budget, Accepted(accepts[i..]))
    {
      AcceptStep(budget, accepts, i);
      ConnectionsStep(accepts, i);
      ghost var before := budget;
      if accepts[i].None? {
        if budget == 0 {
          return budget, true, spawned;
        }
        budget := budget - 1;
        assert NextBudget(before, false) == Some(budget);
        continue;
      }
      if budget < AcceptErrorsBudget {
        budget := budget + 1;
      }
      assert NextBudget(before, true) == Some(budget);
      spawned := spawned + [Spawn(accepts[i], connId)];
      connId := connId + 1;
    }
    assert accepts[..|accepts|] == accepts;
    return budget, false, spawned;
  }

  /** The discrepancy: one failed accept leaves budget, and the loop as
      written starts a handler on no connection, which dereferences nil
      and ends the process; the intended loop starts nothing. */
  lemma FailedAcceptSpawnsNilHandler()
    ensures RunBudget(AcceptErrorsBudget, Accepted([None])) == Some(AcceptErrorsBudget - 1)
    ensures SpawnedAsWritten([None]) == [Spawn(None, 0)]
    ensures SpawnedCorrected([None]) == []
  {
    assert Accepted([None]) == [false];
    assert Accepted([None])[1..] == [];
    var none: seq<Option<nat>> := [None];
    assert none[..1] == none;
    assert none[..0] == [];
    assert Connections(none) == [];
  }

  /** Every handler the intended loop starts has a connection, and every
      connection handled gets one. */
  lemma SpawnedCorrectedHasConnections(accepts: seq<Option<nat>>)
    ensures forall s :: s in SpawnedCorrected(accepts) ==> s.conn.Some?
    ensures RunBudget(AcceptErrorsBudget, Accepted(accepts)).Some? ==>
      |SpawnedCorrected(accepts)| == |Connections(accepts)|
  {
    if RunBudget(AcceptErrorsBudget, Accepted(accepts)).Some? {
      assert accepts[..|accepts|] == accepts;
    }
  }
}
