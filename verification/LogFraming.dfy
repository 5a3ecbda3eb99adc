/** main.c: log messages as fixed-size records in a pipe, and the reader that splits them again. */
module LogFraming {
  const SIZE := 4096
  const DELIMITER := '$'
  const NUL := '\0'
  const END_PROC: CString := "END_PROC"

  /** What a C string holds: characters without NUL. */
  type CString = s: seq<char> | forall i :: 0 <= i < |s| ==> s[i] != NUL

  /** The C string that starts at the beginning of a buffer. */
  function CStr(s: seq<char>): (r: CString)
    ensures |r| <= |s|
  {
    if s == [] || s[0] == NUL then [] else [s[0]] + CStr(s[1..])
  }

  function UntilDelimiter(s: CString): (n: nat)
    ensures n <= |s| && (n < |s| ==> s[n] == DELIMITER)
    ensures forall i :: 0 <= i < n ==> s[i] != DELIMITER
  {
    if s == [] || s[0] == DELIMITER then 0 else 1 + UntilDelimiter(s[1..])
  }

  lemma UntilDelimiterIs(s: CString, n: nat)
    requires n <= |s| && (n < |s| ==> s[n] == DELIMITER)
    requires forall i :: 0 <= i < n ==> s[i] != DELIMITER
    ensures UntilDelimiter(s) == n
  {
  }

  /** The non-empty pieces of a string between delimiters. */
  function Pieces(s: CString): seq<CString>
    decreases |s|
  {
    if s == [] then []
    else if s[0] == DELIMITER then Pieces(s[1..])
    else
      var n := UntilDelimiter(s);
      [s[..n]] + Pieces(s[n..])
  }

  /** The record that carries a message. */
  function Framed(msg: CString): (r: seq<char>)
    requires |msg| <= SIZE - 2
    ensures |r| == 4096
  {
    msg + [DELIMITER] + seq(SIZE - 1 - |msg|, _ => NUL)
  }

  // ----- C strings in buffers -----

  lemma {:induction false} CStrPrefix(s: seq<char>, n: nat)
    requires n <= |s| && forall i :: 0 <= i < n ==> s[i] != NUL
    ensures CStr(s) == s[..n] + CStr(s[n..])
    decreases n
  {
    if n == 0 {
      assert s[0..] == s;
    } else {
      var t := s[1..];
      CStrPrefix(t, n - 1);
      assert t[n - 1..] == s[n..];
      assert [s[0]] + (t[..n - 1] + CStr(s[n..])) == ([s[0]] + t[..n - 1]) + CStr(s[n..]);
      assert s[..n] == [s[0]] + t[..n - 1];
    }
  }

  lemma CStrEnds(s: seq<char>, n: nat)
    requires n < |s| && s[n] == NUL && forall i :: 0 <= i < n ==> s[i] != NUL
    ensures CStr(s) == s[..n]
  {
    CStrPrefix(s, n);
  }

  lemma CStrOfFramed(msg: CString)
    requires |msg| <= SIZE - 2
    ensures CStr(Framed(msg)) == msg + [DELIMITER] && Framed(msg)[|msg| + 1] == NUL
  {
    CStrEnds(Framed(msg), |msg| + 1);
    assert Framed(msg)[..|msg| + 1] == msg + [DELIMITER];
  }

  lemma ConcatAssociates<T>(a: seq<T>, b: seq<T>, c: seq<T>)
    ensures (a + b) + c == a + (b + c)
  {
  }

  lemma {:induction false} PiecesOfFirst(s: CString, n: nat)
    requires 0 < n < |s| && s[n] == DELIMITER && forall i :: 0 <= i < n ==> s[i] != DELIMITER
    ensures Pieces(s) == [s[..n]] + Pieces(s[n..])
  {
    UntilDelimiterIs(s, n);
  }

  lemma {:induction false} PiecesOfRest(s: CString)
    requires s != [] && s[0] == DELIMITER
    ensures Pieces(s) == Pieces(s[1..])
  {
  }

  /** A delimiter ends one piece and begins another, wherever it stands. */
  lemma {:induction false} PiecesAround(a: CString, b: CString)
    ensures Pieces(a + ['$'] + b) == Pieces(a) + Pieces(b)
    decreases |a|
  {
    var s: CString := a + ['$'] + b;
    if a == [] || a[0] == DELIMITER {
      PiecesOfRest(s);
      if a == [] {
        assert s[1..] == b;
      } else {
        assert s[1..] == a[1..] + ['$'] + b;
        PiecesAround(a[1..], b);
      }
    } else {
      var n := UntilDelimiter(a);
      PiecesOfFirst(s, n);
      assert s[..n] == a[..n] && s[n..] == a[n..] + ['$'] + b;
      PiecesAround(a[n..], b);
      ConcatAssociates([a[..n]], Pieces(a[n..]), Pieces(b));
    }
  }

  /** A text without a delimiter is one piece, or none if it is empty. */
  lemma PiecesWithin(s: CString)
    requires '$' !in s
    ensures Pieces(s) == if s == "" then [] else [s]
  {
    if s != [] {
      UntilDelimiterIs(s, |s|);
      assert s[..|s|] == s && s[|s|..] == [];
    }
  }

  lemma PiecesOfAppended(s: CString)
    ensures Pieces(s + [DELIMITER]) == Pieces(s)
  {
    PiecesAround(s, []);
    assert s + ['$'] + [] == s + [DELIMITER];
  }

  // ----- the writer -----

  /** memset(buffer, 0, SIZE) */
  method Clear(buffer: array<char>)
    modifies buffer
    ensures forall i :: 0 <= i < buffer.Length ==> buffer[i] == NUL
  {
    for i := 0 to buffer.Length
      invariant forall k :: 0 <= k < i ==> buffer[k] == NUL
    {
      buffer[i] := NUL;
    }
  }

  /** strncpy(buffer, msg, SIZE), which pads with NUL, then strcat(buffer, DELIMITER). */
  method CopyAndDelimit(buffer: array<char>, msg: CString)
    requires buffer.Length == SIZE && |msg| <= SIZE - 2
    modifies buffer
    ensures buffer[..] == Framed(msg)
  {
    for i := 0 to SIZE
      invariant forall k :: 0 <= k < i ==> buffer[k] == if k < |msg| then msg[k] else NUL
    {
      buffer[i] := if i < |msg| then msg[i] else NUL;
    }
    var end := 0;
    while buffer[end] != NUL
      invariant 0 <= end <= |msg|
      decreases |msg| - end
    {
      end := end + 1;
    }
    buffer[end], buffer[end + 1] := DELIMITER, NUL;
  }

  // ----- the reader -----

  lemma TokenFound(s: seq<char>, n: nat)
    requires 0 < n < |s| && (s[n] == DELIMITER || s[n] == NUL)
    requires forall i :: 0 <= i < n ==> s[i] != DELIMITER && s[i] != NUL
    ensures Pieces(CStr(s)) == [s[..n]] + Pieces(if s[n] == DELIMITER then CStr(s[n + 1..]) else [])
  {
    CStrPrefix(s, n);
    var c := CStr(s);
    assert s[n] == NUL ==> |c| == n;
    assert s[n] == DELIMITER ==> c[n] == s[n..][0];
    UntilDelimiterIs(c, n);
    assert c[..n] == s[..n] && c[n..] == CStr(s[n..]);
    if s[n] == DELIMITER {
      assert s[n..][1..] == s[n + 1..];
    }
  }

  /** The end of a token is turned into a NUL, and what follows is left alone. */
  lemma TokenCut(was: seq<char>, at: nat, stop: nat, now: seq<char>, next: nat)
    requires at < stop < |was| && (was[stop] == DELIMITER || was[stop] == NUL)
    requires forall i :: at <= i < stop ==> was[i] != DELIMITER && was[i] != NUL
    requires now == was[stop := NUL] && next == if was[stop] == DELIMITER then stop + 1 else stop
    ensures Pieces(CStr(was[at..])) == [CStr(now[at..])] + Pieces(CStr(now[next..]))
  {
    var s, n := was[at..], stop - at;
    TokenFound(s, n);
    assert now[at..][..n] == s[..n] && now[at..][n] == NUL;
    CStrEnds(now[at..], n);
    if was[stop] == DELIMITER {
      assert now[next..] == s[n + 1..];
    } else {
      assert now[next..][0] == NUL;
    }
  }

  /** The first loop of strtok; `was` is what the buffer holds, with a NUL at `end`. */
  method SkipDelimiters(buffer: array<char>, start: nat, ghost was: seq<char>, ghost end: nat) returns (at: nat)
    requires was == buffer[..] && start <= end < |was| && was[end] == NUL
    ensures start <= at <= end && was[at] != DELIMITER
    ensures Pieces(CStr(was[at..])) == Pieces(CStr(was[start..]))
  {
    at := start;
    while buffer[at] == DELIMITER
      invariant start <= at <= end
      invariant Pieces(CStr(was[at..])) == Pieces(CStr(was[start..]))
      decreases end - at
    {
      assert was[at..][1..] == was[at + 1..];
      at := at + 1;
    }
  }

  /** The second loop of strtok. */
  method SkipToken(buffer: array<char>, at: nat, ghost was: seq<char>, ghost end: nat) returns (stop: nat)
    requires was == buffer[..] && at < end < |was| && was[end] == NUL && was[at] != DELIMITER && was[at] != NUL
    ensures at < stop <= end && (was[stop] == DELIMITER || was[stop] == NUL)
    ensures forall i :: at <= i < stop ==> was[i] != DELIMITER && was[i] != NUL
  {
    stop := at;
    while buffer[stop] != DELIMITER && buffer[stop] != NUL
      invariant at <= stop <= end
      invariant forall i :: at <= i < stop ==> was[i] != DELIMITER && was[i] != NUL
      decreases end - stop
    {
      stop := stop + 1;
    }
  }

  /** The end of a token becomes a NUL, and the next call starts after it. */
  method CutToken(buffer: array<char>, stop: nat) returns (next: nat)
    requires stop < buffer.Length && (buffer[stop] == DELIMITER || buffer[stop] == NUL)
    modifies buffer
    ensures buffer[..] == old(buffer[..])[stop := NUL]
    ensures next == if old(buffer[stop]) == DELIMITER then stop + 1 else stop
  {
    next := stop;
    if buffer[stop] == DELIMITER {
      buffer[stop] := NUL;
      next := stop + 1;
    }
  }

  /**
   strtok(buffer + start, DELIMITER): it ends the token it finds in place and remembers what follows.
   Not found is its NULL result.
   */
  method StrTok(buffer: array<char>, start: nat, ghost was: seq<char>, ghost end: nat)
    returns (found: bool, token: nat, next: nat)
    requires was == buffer[..] && start <= end < |was| && was[end] == NUL
    modifies buffer
    ensures start <= next <= end && buffer[end] == NUL
    ensures !found ==> Pieces(CStr(was[start..])) == []
    ensures found ==>
              && token < next && start < next
              && Pieces(CStr(was[start..])) == [CStr(buffer[..][token..])] + Pieces(CStr(buffer[..][next..]))
  {
    var at := SkipDelimiters(buffer, start, was, end);
    if buffer[at] == NUL {
      return false, at, at;
    }
    var stop := SkipToken(buffer, at, was, end);
    next := CutToken(buffer, stop);
    TokenCut(was, at, stop, was[stop := NUL], next);
    return true, at, next;
  }

  // ----- the child process -----

  /** The elements before the first `stop`. */
  function Before<T(==)>(s: seq<T>, stop: T): seq<T>
  {
    if s == [] || s[0] == stop then [] else [s[0]] + Before(s[1..], stop)
  }

  lemma {:induction false} BeforeConcat<T>(a: seq<T>, b: seq<T>, stop: T)
    ensures Before(a + b, stop) == if stop in a then Before(a, stop) else Before(a, stop) + Before(b, stop)
    decreases |a|
  {
    if a == [] {
      assert a + b == b;
    } else {
      assert (a + b)[1..] == a[1..] + b && a == [a[0]] + a[1..];
      BeforeConcat(a[1..], b, stop);
    }
  }

  lemma {:induction false} BeforeIs<T>(s: seq<T>, stop: T)
    ensures Before(s, stop) <= s && stop !in Before(s, stop)
    ensures |Before(s, stop)| < |s| ==> s[|Before(s, stop)|] == stop
    decreases |s|
  {
    if s != [] && s[0] != stop {
      BeforeIs(s[1..], stop);
    }
  }

  lemma OneMore<T>(left: seq<T>, done: seq<T>, stop: T)
    requires left != []
    ensures stop in left <==> left[0] == stop || stop in left[1..]
    ensures left[0] != stop ==> (done + [left[0]]) + Before(left[1..], stop) == done + Before(left, stop)
  {
  }

  /** What has been taken and what is queued make up `all`, as far as the first `stop`. */
  ghost predicate Balance<T>(taken: seq<T>, ended: bool, queued: seq<T>, all: seq<T>, stop: T)
  {
    if ended then stop in all && taken == Before(all, stop)
    else (stop in all <==> stop in queued) && taken + Before(queued, stop) == Before(all, stop)
  }

  lemma BalanceTake<T>(taken: seq<T>, first: seq<T>, rest: seq<T>, all: seq<T>, stop: T)
    requires Balance(taken, false, first + rest, all, stop)
    ensures Balance(taken + Before(first, stop), stop in first, rest, all, stop)
  {
    BeforeConcat(first, rest, stop);
    ConcatAssociates(taken, Before(first, stop), Before(rest, stop));
  }

  lemma BalancePut<T>(taken: seq<T>, ended: bool, queued: seq<T>, all: seq<T>, more: seq<T>, stop: T)
    requires Balance(taken, ended, queued, all, stop)
    ensures Balance(taken, ended, queued + more, all + more, stop)
  {
    BeforeConcat(queued, more, stop);
    BeforeConcat(all, more, stop);
    ConcatAssociates(taken, Before(queued, stop), Before(more, stop));
  }

  /** The pieces that are logged: those before the one that ends the process. */
  function BeforeEnd(pieces: seq<CString>): seq<CString>
  {
    Before<CString>(pieces, END_PROC)
  }

  function AllPieces(records: seq<seq<char>>): seq<CString>
  {
    if records == [] then [] else Pieces(CStr(records[0])) + AllPieces(records[1..])
  }

  /** The texts of log lines. */
  function Texts(log: seq<(nat, CString)>): (r: seq<CString>)
    ensures |r| == |log|
  {
    seq(|log|, i requires 0 <= i < |log| => log[i].1)
  }

  class Logger {
    var writeMessage: array<char>
    var readMessage: array<char>
    /** The records in the pipe, oldest first. */
    var pipe: seq<seq<char>>
    /** The lines of the log file: sequence number and text. */
    var log: seq<(nat, CString)>
    var seqNum: nat

    constructor ()
      ensures Valid() && pipe == [] && log == [] && seqNum == 0
      ensures fresh(writeMessage) && fresh(readMessage)
    {
      writeMessage, readMessage := new char[SIZE], new char[SIZE];
      pipe, log, seqNum := [], [], 0;
    }

    ghost predicate Valid()
      reads this
    {
      && writeMessage.Length == readMessage.Length == SIZE && writeMessage != readMessage
      && |log| == seqNum
      && (forall i :: 0 <= i < |log| ==> log[i].0 == i)
      && forall i :: 0 <= i < |pipe| ==> |pipe[i]| == SIZE && NUL in pipe[i]
    }

    /** write_to_log_process; a message must leave room for the delimiter and the NUL. */
    method WriteToLogProcess(msg: CString)
      requires Valid() && |msg| <= SIZE - 2
      modifies `pipe, writeMessage
      ensures Valid()
      ensures pipe == old(pipe) + [Framed(msg)]
    {
      Clear(writeMessage);
      CopyAndDelimit(writeMessage, msg);
      CStrOfFramed(msg);
      pipe := pipe + [writeMessage[..]];
    }

    /** end_log_process, as far as the pipe sees it. */
    method EndLogProcess()
      requires Valid()
      modifies `pipe, writeMessage
      ensures Valid()
      ensures |END_PROC| <= SIZE - 2 && pipe == old(pipe) + [Framed(END_PROC)]
    {
      WriteToLogProcess(END_PROC);
    }

    /** read() of one whole record into the read buffer. */
    method Receive(record: seq<char>)
      requires Valid() && |record| == SIZE
      modifies readMessage
      ensures readMessage[..] == record
    {
      for i := 0 to SIZE
        invariant forall k :: 0 <= k < i ==> readMessage[k] == record[k]
      {
        readMessage[i] := record[i];
      }
    }

    method AppendLine(text: CString)
      requires Valid()
      modifies `log, `seqNum
      ensures Valid() && Texts(log) == Texts(old(log)) + [text]
    {
      log := log + [(seqNum, text)];
      seqNum := seqNum + 1;
    }

    /** One turn of the strtok loop: END_PROC ends it, any other piece becomes a line. */
    method LogPiece(text: CString) returns (ended: bool)
      requires Valid()
      modifies `log, `seqNum
      ensures Valid() && (ended <==> text == END_PROC)
      ensures Texts(log) == if ended then Texts(old(log)) else Texts(old(log)) + [text]
    {
      ended := text == END_PROC;
      if !ended {
        AppendLine(text);
      }
    }

    /** The strtok loop over one record; it stops at the piece that ends the process. */
    method SplitRecord(record: seq<char>) returns (ended: bool)
      requires Valid() && |record| == SIZE && NUL in record
      modifies `log, `seqNum, readMessage
      ensures Valid()
      ensures Texts(log) == Texts(old(log)) + BeforeEnd(Pieces(CStr(record)))
      ensures ended <==> END_PROC in Pieces(CStr(record))
    {
      Receive(record);
      ghost var end :| 0 <= end < SIZE && record[end] == NUL;
      ghost var left := Pieces(CStr(record));
      ghost var due, last := Texts(log) + BeforeEnd(left), END_PROC in left;
      assert record[0..] == record;
      var found, token, next := StrTok(readMessage, 0, record, end);
      ended := false;
      while found && !ended
        invariant Valid() && 0 <= next <= end && readMessage[end] == NUL
        invariant !ended && found ==> 0 <= token < next
        invariant !ended ==> left == if !found then [] else
                            [CStr(readMessage[..][token..])] + Pieces(CStr(readMessage[..][next..]))
        invariant !ended ==> Texts(log) + BeforeEnd(left) == due && (END_PROC in left <==> last)
        invariant ended ==> Texts(log) == due && last
        decreases |left|, !ended
      {
        OneMore<CString>(left, Texts(log), END_PROC);
        ended := LogPiece(CStr(readMessage[..][token..]));
        if !ended {
          left := left[1..];
          found, token, next := StrTok(readMessage, next, readMessage[..], end);
        }
      }
    }

    /** One turn of the reading loop, when there is a record to read. */
    method ReadRecord() returns (ended: bool)
      requires Valid() && pipe != []
      modifies `pipe, `log, `seqNum, readMessage
      ensures Valid() && pipe == old(pipe)[1..]
      ensures Texts(log) == Texts(old(log)) + BeforeEnd(Pieces(CStr(old(pipe)[0])))
      ensures ended <==> END_PROC in Pieces(CStr(old(pipe)[0]))
    {
      var record := pipe[0];
      pipe := pipe[1..];
      ended := SplitRecord(record);
    }

    /** The reading loop, over the records that are in the pipe: it ends at the record that says so. */
    method ReadLoop() returns (ended: bool)
      requires Valid()
      modifies `pipe, `log, `seqNum, readMessage
      ensures Valid()
      ensures Texts(log) == Texts(old(log)) + BeforeEnd(AllPieces(old(pipe)))
      ensures ended <==> END_PROC in AllPieces(old(pipe))
    {
      ghost var pieces := AllPieces(pipe);
      ghost var logged := [];
      ended := false;
      while !ended && pipe != []
        invariant Valid() && Texts(log) == Texts(old(log)) + logged
        invariant Accounts(logged, ended, pipe, pieces)
        decreases |pipe|
      {
        AccountsRead(logged, pipe, pieces);
        logged := logged + BeforeEnd(Pieces(CStr(pipe[0])));
        ended := ReadRecord();
      }
    }
  }

  /** What has been logged and what is in the pipe make up the pieces up to an END_PROC. */
  ghost predicate Accounts(logged: seq<CString>, ended: bool, pipe: seq<seq<char>>, pieces: seq<CString>)
  {
    Balance<CString>(logged, ended, AllPieces(pipe), pieces, END_PROC)
  }

  lemma AccountsRead(logged: seq<CString>, pipe: seq<seq<char>>, pieces: seq<CString>)
    requires pipe != []
    ensures var first := Pieces(CStr(pipe[0]));
            Accounts(logged, false, pipe, pieces)
            ==> Accounts(logged + BeforeEnd(first), END_PROC in first, pipe[1..], pieces)
  {
    if !Accounts(logged, false, pipe, pieces) {
      return;
    }
    BalanceTake<CString>(logged, Pieces(CStr(pipe[0])), AllPieces(pipe[1..]), pieces, END_PROC);
  }

  lemma {:induction false} AllPiecesAppend(pipe: seq<seq<char>>, record: seq<char>)
    ensures AllPieces(pipe + [record]) == AllPieces(pipe) + Pieces(CStr(record))
    decreases |pipe|
  {
    if pipe == [] {
      assert AllPieces([record][1..]) == [];
    } else {
      assert (pipe + [record])[1..] == pipe[1..] + [record];
      AllPiecesAppend(pipe[1..], record);
    }
  }

  lemma AccountsWrite(logged: seq<CString>, ended: bool, pipe: seq<seq<char>>, pieces: seq<CString>, msg: CString)
    requires Accounts(logged, ended, pipe, pieces) && |msg| <= SIZE - 2
    ensures Accounts(logged, ended, pipe + [Framed(msg)], pieces + Pieces(msg))
  {
    CStrOfFramed(msg);
    PiecesOfAppended(msg);
    AllPiecesAppend(pipe, Framed(msg));
    BalancePut<CString>(logged, ended, AllPieces(pipe), pieces, Pieces(msg), END_PROC);
  }

  // ----- what the log file holds -----

  ghost predicate Fits(messages: seq<CString>)
  {
    forall i :: 0 <= i < |messages| ==> |messages[i]| <= SIZE - 2
  }

  /** The records that write_to_log_process puts into the pipe. */
  function FramedAll(messages: seq<CString>): (r: seq<seq<char>>)
    requires Fits(messages)
    ensures |r| == |messages|
  {
    seq(|messages|, i requires 0 <= i < |messages| => Framed(messages[i]))
  }

  function PiecesOfAll(messages: seq<CString>): seq<CString>
  {
    if messages == [] then [] else Pieces(messages[0]) + PiecesOfAll(messages[1..])
  }

  /** Framing adds and loses nothing: the records hold the pieces of the messages. */
  lemma {:induction false} PiecesSurvive(messages: seq<CString>)
    requires Fits(messages)
    ensures AllPieces(FramedAll(messages)) == PiecesOfAll(messages)
    decreases |messages|
  {
    if messages != [] {
      CStrOfFramed(messages[0]);
      PiecesOfAppended(messages[0]);
      assert FramedAll(messages)[1..] == FramedAll(messages[1..]);
      PiecesSurvive(messages[1..]);
    }
  }

  lemma {:induction false} PiecesOfAllConcat(a: seq<CString>, b: seq<CString>)
    ensures PiecesOfAll(a + b) == PiecesOfAll(a) + PiecesOfAll(b)
    decreases |a|
  {
    if a == [] {
      assert a + b == b;
    } else {
      assert (a + b)[1..] == a[1..] + b;
      PiecesOfAllConcat(a[1..], b);
    }
  }

  lemma OnePiece(msg: CString)
    requires msg != [] && DELIMITER !in msg
    ensures Pieces(msg) == [msg] && PiecesOfAll([msg]) == [msg]
  {
    PiecesWithin(msg);
    assert PiecesOfAll([msg]) == Pieces(msg) + [];
  }

  lemma SessionFits(messages: seq<CString>)
    requires Fits(messages)
    ensures Fits(messages + [END_PROC])
  {
    assert |END_PROC| == 8;
  }

  /** A session: messages written, then END_PROC. Its log holds the messages' pieces, up to an END_PROC among them. */
  lemma SessionLog(messages: seq<CString>)
    requires Fits(messages)
    ensures Fits(messages + [END_PROC])
    ensures var pieces := AllPieces(FramedAll(messages + [END_PROC]));
            BeforeEnd(pieces) == BeforeEnd(PiecesOfAll(messages)) && END_PROC in pieces
  {
    SessionFits(messages);
    OnePiece(END_PROC);
    PiecesSurvive(messages + [END_PROC]);
    PiecesOfAllConcat(messages, [END_PROC]);
    var pieces := PiecesOfAll(messages);
    BeforeConcat<CString>(pieces, [END_PROC], END_PROC);
    assert BeforeEnd([END_PROC]) == [] && BeforeEnd(pieces) + [] == BeforeEnd(pieces);
  }

  /** A message that comes through as it is. */
  ghost predicate Clean(msg: CString)
  {
    msg != [] && DELIMITER !in msg && msg != END_PROC
  }

  /** Every text without NUL is a C string, and it is clean just when it is not special to the reader. */
  lemma CleanIs(msg: seq<char>) returns (c: CString)
    requires '\0' !in msg
    ensures c == msg
    ensures Clean(c) <==> msg != "" && '$' !in msg && msg != "END_PROC"
  {
    c := msg;
  }

  lemma {:induction false} PiecesAreNonEmpty(s: CString, i: nat)
    requires i < |Pieces(s)|
    ensures Pieces(s)[i] != [] && DELIMITER !in Pieces(s)[i]
    decreases |s|
  {
    if s[0] == DELIMITER {
      PiecesAreNonEmpty(s[1..], i);
    } else if i > 0 {
      PiecesAreNonEmpty(s[UntilDelimiter(s)..], i - 1);
    }
  }

  lemma {:induction false} LoggedLinesAreClean(messages: seq<CString>, i: nat)
    requires i < |BeforeEnd(PiecesOfAll(messages))|
    ensures Clean(BeforeEnd(PiecesOfAll(messages))[i])
    decreases |messages|
  {
    var pieces, rest := Pieces(messages[0]), PiecesOfAll(messages[1..]);
    BeforeConcat<CString>(pieces, rest, END_PROC);
    if i < |BeforeEnd(pieces)| {
      BeforeIs<CString>(pieces, END_PROC);
      PiecesAreNonEmpty(messages[0], i);
    } else {
      LoggedLinesAreClean(messages[1..], i - |BeforeEnd(pieces)|);
    }
  }

  lemma {:induction false} CleanMessagesComeThrough(messages: seq<CString>)
    requires forall i :: 0 <= i < |messages| ==> Clean(messages[i])
    ensures BeforeEnd(PiecesOfAll(messages)) == messages
    decreases |messages|
  {
    if messages != [] {
      var m := messages[0];
      OnePiece(m);
      BeforeConcat<CString>([m], PiecesOfAll(messages[1..]), END_PROC);
      CleanMessagesComeThrough(messages[1..]);
    }
  }

  /** The logged pieces are exactly the messages written, in order, if and only if each message is clean. */
  lemma MessagesComeThrough(messages: seq<CString>)
    ensures BeforeEnd(PiecesOfAll(messages)) == messages
            <==> forall i :: 0 <= i < |messages| ==> Clean(messages[i])
  {
    if BeforeEnd(PiecesOfAll(messages)) == messages {
      forall i | 0 <= i < |messages|
        ensures Clean(messages[i])
      {
        LoggedLinesAreClean(messages, i);
      }
    }
    if forall i :: 0 <= i < |messages| ==> Clean(messages[i]) {
      CleanMessagesComeThrough(messages);
    }
  }

  /** The records of a session hold exactly its messages before END_PROC if and only if each of them is clean. */
  lemma LogRoundTrip(messages: seq<CString>)
    requires Fits(messages)
    ensures Fits(messages + [END_PROC])
    ensures BeforeEnd(AllPieces(FramedAll(messages + [END_PROC]))) == messages
            <==> forall i :: 0 <= i < |messages| ==> Clean(messages[i])
  {
    SessionLog(messages);
    MessagesComeThrough(messages);
  }

  // ----- whole sessions -----

  /** The pieces of messages are those of each message, one after the other. */
  lemma PiecesOfOneMore(messages: seq<CString>, i: nat)
    requires i < |messages|
    ensures PiecesOfAll(messages[..0]) == []
    ensures PiecesOfAll(messages[..i + 1]) == PiecesOfAll(messages[..i]) + Pieces(messages[i])
  {
    assert messages[..i + 1] == messages[..i] + [messages[i]];
    PiecesOfAllConcat(messages[..i], [messages[i]]);
    assert PiecesOfAll([messages[i]]) == Pieces(messages[i]) + [];
  }

  /** The next message of a session is written. */
  method WriteNext(logger: Logger, messages: seq<CString>, i: nat, ghost ended: bool)
    requires logger.Valid() && Fits(messages) && i < |messages|
    requires Accounts(Texts(logger.log), ended, logger.pipe, PiecesOfAll(messages[..i]))
    modifies logger`pipe, logger.writeMessage
    ensures logger.Valid()
    ensures Accounts(Texts(logger.log), ended, logger.pipe, PiecesOfAll(messages[..i + 1]))
  {
    PiecesOfOneMore(messages, i);
    AccountsWrite(Texts(logger.log), ended, logger.pipe, PiecesOfAll(messages[..i]), messages[i]);
    logger.WriteToLogProcess(messages[i]);
  }

  /** The reader takes the next record, if it has not ended and there is one; otherwise it stays blocked. */
  method ReadNext(logger: Logger, ended: bool, ghost pieces: seq<CString>) returns (endedNow: bool)
    requires logger.Valid() && Accounts(Texts(logger.log), ended, logger.pipe, pieces)
    modifies logger`pipe, logger`log, logger`seqNum, logger.readMessage
    ensures logger.Valid() && Accounts(Texts(logger.log), endedNow, logger.pipe, pieces)
  {
    endedNow := ended;
    if !ended && logger.pipe != [] {
      AccountsRead(Texts(logger.log), logger.pipe, pieces);
      endedNow := logger.ReadRecord();
    }
  }

  /** After all messages END_PROC is written, and the reader goes on until it meets one. */
  method Close(logger: Logger, ended: bool, ghost pieces: seq<CString>) returns (endedNow: bool)
    requires logger.Valid() && Accounts(Texts(logger.log), ended, logger.pipe, pieces)
    modifies logger`pipe, logger`log, logger`seqNum, logger.writeMessage, logger.readMessage
    ensures logger.Valid() && endedNow && Texts(logger.log) == BeforeEnd(pieces)
  {
    OnePiece(END_PROC);
    BeforeConcat<CString>(pieces, [END_PROC], END_PROC);
    AccountsWrite(Texts(logger.log), ended, logger.pipe, pieces, END_PROC);
    logger.EndLogProcess();
    if ended {
      return true;
    }
    endedNow := logger.ReadLoop();
  }

  /**
   All messages are written while the child reads: `writes` says in which order the two processes take
   turns, until it is used up.
   */
  method Exchange(logger: Logger, messages: seq<CString>, writes: seq<bool>) returns (ended: bool)
    requires logger.Valid() && logger.log == [] && logger.pipe == [] && Fits(messages)
    modifies logger`pipe, logger`log, logger`seqNum, logger.writeMessage, logger.readMessage
    ensures logger.Valid() && Accounts(Texts(logger.log), ended, logger.pipe, PiecesOfAll(messages))
  {
    ended := false;
    var i, turn := 0, 0;
    while turn < |writes| || i < |messages|
      invariant 0 <= i <= |messages| && 0 <= turn <= |writes| && logger.Valid()
      invariant Accounts(Texts(logger.log), ended, logger.pipe, PiecesOfAll(messages[..i]))
      decreases |writes| - turn + |messages| - i
    {
      if turn == |writes| || (writes[turn] && i < |messages|) {
        WriteNext(logger, messages, i, ended);
        i := i + 1;
      } else {
        ended := ReadNext(logger, ended, PiecesOfAll(messages[..i]));
      }
      if turn < |writes| {
        turn := turn + 1;
      }
    }
    assert messages[..i] == messages;
  }

  /**
   A whole session of the log process, however its two sides take turns: the lines are the pieces of the
   messages up to an END_PROC among them, numbered from 0 on.
   */
  method Session(messages: seq<CString>, writes: seq<bool>) returns (lines: seq<(nat, CString)>, ended: bool)
    requires forall i :: 0 <= i < |messages| ==> |messages[i]| <= 4094
    ensures ended
    ensures var texts := Before<CString>(PiecesOfAll(messages), "END_PROC");
            |lines| == |texts| && forall i :: 0 <= i < |lines| ==> lines[i] == (i, texts[i])
    ensures (|lines| == |messages| && forall i :: 0 <= i < |lines| ==> lines[i] == (i, messages[i]))
            <==> forall i :: 0 <= i < |messages| ==>
                   messages[i] != "" && '$' !in messages[i] && messages[i] != "END_PROC"
  {
    var logger := new Logger();
    ended := Exchange(logger, messages, writes);
    ended := Close(logger, ended, PiecesOfAll(messages));
    lines := logger.log;
    ghost var texts := Texts(lines);
    assert forall i :: 0 <= i < |lines| ==> lines[i] == (i, texts[i]);
    SameLines<CString>(lines, texts, messages);
    MessagesComeThrough(messages);
    CleanAll(messages);
  }

  lemma CleanAll(messages: seq<CString>)
    ensures (forall i :: 0 <= i < |messages| ==> Clean(messages[i]))
            <==> forall i :: 0 <= i < |messages| ==>
                   messages[i] != "" && '$' !in messages[i] && messages[i] != "END_PROC"
  {
    forall i | 0 <= i < |messages|
      ensures Clean(messages[i]) <==> messages[i] != "" && '$' !in messages[i] && messages[i] != "END_PROC"
    {
      assert '\0' !in messages[i];
      var c := CleanIs(messages[i]);
    }
  }

  lemma SameLines<T>(lines: seq<(nat, T)>, texts: seq<T>, messages: seq<T>)
    requires |lines| == |texts| && forall i :: 0 <= i < |lines| ==> lines[i] == (i, texts[i])
    ensures (|lines| == |messages| && forall i :: 0 <= i < |lines| ==> lines[i] == (i, messages[i]))
            <==> texts == messages
  {
    if |lines| == |messages| && forall i :: 0 <= i < |lines| ==> lines[i] == (i, messages[i]) {
      forall i | 0 <= i < |texts|
        ensures texts[i] == messages[i]
      {
        assert lines[i] == (i, messages[i]);
      }
    }
  }
}
