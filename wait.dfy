/** wait_linux.go: adding a descriptor to a `select` set, and waiting until a
    descriptor is readable with an optional timeout, retrying when `select` is
    interrupted. The clock and `select` are oracles. */
module Wait {
  import opened Types

  /** `syscall.FdSet` on linux/amd64 holds `Bits [16]int64`. */
  const FdSetWords: nat := 16
  const BitsPerWord: nat := 64

  /** A set with no descriptor in it, as `var readfds syscall.FdSet` declares it. */
  const EmptySet: seq<bv64> := seq(FdSetWords, _ => 0)

  /** Go's integer division truncates toward zero. */
  function GoQuo(a: int, b: int): (q: int)
    requires b > 0
    ensures a >= 0 ==> q == a / b
    ensures -b < a < 0 ==> q == 0
  {
    if a >= 0 then a / b else -((-a) / b)
  }

  /** `1 << (uint(fd) % 64)`: converting to `uint` adds 2^64 to a negative
      descriptor, which leaves its remainder modulo 64 unchanged. */
  function BitOf(fd: int): bv64
  {
    1 << ((fd % 64) as bv6)
  }

  /** Whether descriptor `j` is in the set. */
  predicate IsMember(words: seq<bv64>, j: nat)
  {
    j / 64 < |words| && words[j / 64] & BitOf(j) != 0
  }

  /** fdSet as written: the word index is `fd / 64` in Go's truncating division. */
  function MarkAsWritten(fd: int, words: seq<bv64>): (r: seq<bv64>)
    ensures |r| == |words|
  {
    var idx := GoQuo(fd, 64);
    if idx < 0 || idx >= |words| then words else words[idx := words[idx] | BitOf(fd)]
  }

  /** fdSet with the guard it evidently intends: a negative descriptor is left out. */
  function Mark(fd: int, words: seq<bv64>): (r: seq<bv64>)
    ensures |r| == |words|
    ensures fd < 0 || fd / 64 >= |words| ==> r == words
  {
    if fd < 0 || fd / 64 >= |words| then words else words[fd / 64 := words[fd / 64] | BitOf(fd)]
  }

  lemma OrBit(w: bv64, a: bv6, b: bv6)
    ensures (w | (1 << a)) & (1 << b) != 0 <==> a == b || w & (1 << b) != 0
  {
  }

  lemma Bv6RoundTrip(a: nat)
    requires a < 64
    ensures (a as bv6) as int == a
  {
  }

  lemma OrBitOf(w: bv64, fd: nat, j: nat)
    ensures (w | BitOf(fd)) & BitOf(j) != 0 <==> (fd % 64) as bv6 == (j % 64) as bv6 || w & BitOf(j) != 0
  {
    OrBit(w, (fd % 64) as bv6, (j % 64) as bv6);
  }

  lemma SameBitIndex(fd: nat, j: nat)
    ensures (fd % 64) as bv6 == (j % 64) as bv6 <==> fd % 64 == j % 64
  {
    Bv6RoundTrip(fd % 64);
    Bv6RoundTrip(j % 64);
  }

  lemma SameWordSameBit(fd: nat, j: nat)
    requires j / 64 == fd / 64
    ensures j == fd <==> j % 64 == fd % 64
  {
  }

  lemma MarkSameWord(fd: nat, words: seq<bv64>, j: nat)
    requires fd / 64 < |words| && j / 64 == fd / 64
    ensures Mark(fd, words)[j / 64] & BitOf(j) != 0 <==> words[j / 64] & BitOf(j) != 0 || j == fd
  {
    var w := words[j / 64];
    assert Mark(fd, words)[j / 64] == w | BitOf(fd);
    OrBitOf(w, fd, j);
    SameBitIndex(fd, j);
    SameWordSameBit(fd, j);
  }

  /** Marking adds exactly `fd` (when its word exists) and changes no other member. */
  lemma MarkMembers(fd: int, words: seq<bv64>, j: nat)
    ensures IsMember(Mark(fd, words), j) <==> IsMember(words, j) || (j == fd && fd / 64 < |words|)
  {
    if fd >= 0 && fd / 64 < |words| {
      if j / 64 == fd / 64 {
        MarkSameWord(fd, words, j);
      } else if j / 64 < |words| {
        assert Mark(fd, words)[j / 64] == words[j / 64];
      }
    }
  }

  /** Marking twice is marking once. */
  lemma MarkIdempotent(fd: int, words: seq<bv64>)
    ensures Mark(fd, Mark(fd, words)) == Mark(fd, words)
  {
    if fd >= 0 && fd / 64 < |words| {
      var w := words[fd / 64];
      assert (w | BitOf(fd)) | BitOf(fd) == w | BitOf(fd);
    }
  }

  /** For every non-negative descriptor the code as written and the corrected
      guard agree. */
  lemma MarkAsWrittenAgrees(fd: nat, words: seq<bv64>)
    ensures MarkAsWritten(fd, words) == Mark(fd, words)
  {
  }

  /** The guard `idx < 0` lets descriptor -1 through: truncating division gives word
      0, and the bit is `uint(-1) % 64 == 63`, so the set then claims descriptor 63. */
  lemma MarkAsWrittenMinusOne()
    ensures IsMember(MarkAsWritten(-1, EmptySet), 63)
    ensures !IsMember(EmptySet, 63)
  {
    assert BitOf(-1) == 1 << 63;
  }

  /** fdSet as written, on the set in place. */
  method FdSetAsWritten(fd: int, fds: array<bv64>)
    modifies fds
    ensures fds[..] == MarkAsWritten(fd, old(fds[..]))
  {
    var idx := GoQuo(fd, 64);
    if idx < 0 || idx >= fds.Length {
      return;
    }
    fds[idx] := fds[idx] | BitOf(fd);
  }

  /** fdSet with a negative descriptor left out; the wait loop uses this one. */
  method FdSet(fd: int, fds: array<bv64>)
    modifies fds
    ensures fds[..] == Mark(fd, old(fds[..]))
  {
    if fd < 0 || fd / 64 >= fds.Length {
      return;
    }
    fds[fd / 64] := fds[fd / 64] | BitOf(fd);
  }

  // ---------------------------------------------------------------------------
  // waitReadable

  /** `var readfds syscall.FdSet; fdSet(fd, &readfds)`: a fresh set holding `fd`. */
  method ReadSet(fd: nat) returns (readfds: seq<bv64>)
    ensures readfds == Mark(fd, EmptySet)
  {
    var fds := new bv64[FdSetWords](_ => 0);
    assert fds[..] == EmptySet;
    FdSet(fd, fds);
    readfds := fds[..];
  }

  /** What the k-th `select` call reports: the number of ready descriptors, or an
      error number. */
  datatype SelectOutcome = Ready(n: nat) | Failed(errno: Errno)

  /** One `select(nfds, readfds, nil, nil, tv)` call; `timeout` is the remaining time
      in nanoseconds handed over as the timeval, or `None` for a nil timeval. */
  datatype SelectCall = SelectCall(nfds: nat, readfds: seq<bv64>, timeout: Option<int>)

  /** The result of a `select` that was not interrupted. */
  function Outcome(o: SelectOutcome): MaybeError
  {
    match o
    case Failed(e) => Some(Sys(e))
    case Ready(n) => if n == 0 then Some(ErrTimeout) else None
  }

  /** The deadline, `time.Now().Add(timeout)` with the first clock reading. */
  function Deadline(timeout: int, now: nat -> int): int
  {
    now(0) + timeout
  }

  /** Pass `k` of the loop ends the wait: either the deadline has passed by the clock
      reading of that pass, or its `select` was not interrupted. */
  predicate Stops(timeout: int, now: nat -> int, sel: nat -> SelectOutcome, k: nat)
  {
    (timeout >= 0 && Deadline(timeout, now) - now(k + 1) <= 0) || sel(k) != Failed(EINTR)
  }

  /** The `select` call of pass `i`. */
  function PassCall(fd: nat, timeout: int, now: nat -> int, i: nat): SelectCall
  {
    SelectCall(fd + 1, Mark(fd, EmptySet),
      if timeout >= 0 then Some(Deadline(timeout, now) - now(i + 1)) else None)
  }

  /** Whether pass `i` found time left before the deadline (always, without one). */
  predicate TimeLeft(timeout: int, now: nat -> int, i: nat)
  {
    timeout < 0 || Deadline(timeout, now) - now(i + 1) > 0
  }

  /** What a wait that made `passes` select calls returns: the last call's outcome
      when it was not interrupted, and ErrTimeout when the deadline cut the loop. */
  function WaitError(sel: nat -> SelectOutcome, passes: nat): MaybeError
  {
    if passes > 0 && sel(passes - 1) != Failed(EINTR) then Outcome(sel(passes - 1)) else Some(ErrTimeout)
  }

  /** The wait issued `calls` and returned `err`: pass i made `PassCall(i)` after
      finding time left, every select but the last was interrupted, and the wait
      ended either on the last select's outcome or, with a deadline, on the first
      clock reading past it. */
  predicate Waited(fd: nat, timeout: int, now: nat -> int, sel: nat -> SelectOutcome,
                   err: MaybeError, calls: seq<SelectCall>)
  {
    && (forall i :: 0 <= i < |calls| ==> calls[i] == PassCall(fd, timeout, now, i) && TimeLeft(timeout, now, i))
    && (forall i :: 0 <= i < |calls| - 1 ==> sel(i) == Failed(EINTR))
    && err == WaitError(sel, |calls|)
    && (|calls| == 0 || sel(|calls| - 1) == Failed(EINTR) ==> !TimeLeft(timeout, now, |calls|))
  }

  /** waitReadable. `now(0)` is the reading that fixes the deadline and `now(k + 1)`
      the reading of pass `k`; `sel(k)` is what the `select` of pass `k` reports. The
      requires says the environment eventually ends the wait. */
  method WaitReadable(fd: nat, timeout: int, now: nat -> int, sel: nat -> SelectOutcome)
    returns (err: MaybeError, calls: seq<SelectCall>)
    requires exists k: nat :: Stops(timeout, now, sel, k)
    ensures Waited(fd, timeout, now, sel, err, calls)
  {
    var deadline := if timeout >= 0 then now(0) + timeout else 0;
    ghost var last :| Stops(timeout, now, sel, last);
    calls := [];
    var i := 0;
    while true
      invariant i == |calls| <= last
      invariant forall j :: 0 <= j < i ==> calls[j] == PassCall(fd, timeout, now, j) && TimeLeft(timeout, now, j)
      invariant forall j :: 0 <= j < i ==> sel(j) == Failed(EINTR) && !Stops(timeout, now, sel, j)
      decreases last - i
    {
      var tv: Option<int> := None;
      if timeout >= 0 {
        var remaining := deadline - now(i + 1);
        if remaining <= 0 {
          return Some(ErrTimeout), calls;
        }
        tv := Some(remaining);
      }
      var readfds := ReadSet(fd);
      calls := calls + [SelectCall(fd + 1, readfds, tv)];
      var o := sel(i);
      if o == Failed(EINTR) {
        i := i + 1;
      } else {
        return Outcome(o), calls;
      }
    }
  }

  /** Every timeval handed to select is positive: select is never asked to poll. */
  lemma WaitedTimeoutsPositive(fd: nat, timeout: int, now: nat -> int, sel: nat -> SelectOutcome,
                               err: MaybeError, calls: seq<SelectCall>, i: nat)
    requires Waited(fd, timeout, now, sel, err, calls) && timeout >= 0 && i < |calls|
    ensures calls[i].timeout.Some? && calls[i].timeout.value > 0
  {
  }

  /** Without a deadline only a select outcome ends the wait: no nil-timeval wait
      ever reports the timer. */
  lemma NoDeadlineEndsOnSelect(fd: nat, timeout: int, now: nat -> int, sel: nat -> SelectOutcome,
                               err: MaybeError, calls: seq<SelectCall>)
    requires Waited(fd, timeout, now, sel, err, calls) && timeout < 0
    ensures |calls| > 0 && sel(|calls| - 1) != Failed(EINTR) && err == Outcome(sel(|calls| - 1))
    ensures forall i :: 0 <= i < |calls| ==> calls[i].timeout == None
  {
  }

  /** A zero timeout on a clock that does not run backwards times out without a
      select call. */
  lemma ZeroTimeoutNeverSelects(fd: nat, now: nat -> int, sel: nat -> SelectOutcome,
                                err: MaybeError, calls: seq<SelectCall>)
    requires Waited(fd, 0, now, sel, err, calls) && now(1) >= now(0)
    ensures calls == [] && err == Some(ErrTimeout)
  {
    assert |calls| > 0 ==> TimeLeft(0, now, 0);
  }

  /** Outcomes: an interrupted select is retried, a failing one returns its error
      number, zero ready descriptors is ErrTimeout and any other count succeeds. */
  lemma WaitOutcomes(fd: nat, timeout: int, now: nat -> int, sel: nat -> SelectOutcome,
                     err: MaybeError, calls: seq<SelectCall>)
    requires Waited(fd, timeout, now, sel, err, calls)
    ensures err.None? <==> |calls| > 0 && sel(|calls| - 1).Ready? && sel(|calls| - 1).n > 0
    ensures forall e :: err == Some(Sys(e)) ==> e != EINTR && sel(|calls| - 1) == Failed(e)
  {
  }
}
