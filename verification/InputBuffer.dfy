/**
 The buffered standard input of internal/cloudclaude/input_buffer.go: bytes go straight to
 the pipe while connected, into a bounded ring while reconnecting, and nowhere after giving
 up; Flush empties the ring into the pipe.
 */
module InputBuffer {
  import opened Wrappers

  const CAPACITY := 4096
  const DROP := 1024

  // ---------------------------------------------------------------------------
  // The ring

  /** A full ring loses its oldest DROP bytes before the next one is appended. */
  function Push<T>(ring: seq<T>, c: T): seq<T>
  {
    (if |ring| >= CAPACITY then ring[DROP..] else ring) + [c]
  }

  function PushAll<T>(typed: seq<T>): seq<T>
  {
    if typed == [] then [] else Push(PushAll(typed[..|typed| - 1]), typed[|typed| - 1])
  }

  /** How many of n bytes typed since the last flush the ring still holds. */
  function Held(n: nat): (k: nat)
    ensures k <= n && k <= 4096
    ensures n >= 3073 ==> k >= 3073
    ensures n <= 4096 ==> k == n
  {
    if n <= 4096 then n else 3073 + (n - 4097) % 1024
  }

  function LastHeld<T>(typed: seq<T>): seq<T>
  {
    typed[|typed| - Held(|typed|)..]
  }

  lemma PushOntoSuffix<T>(typed: seq<T>, k: nat)
    requires typed != [] && k < |typed| && k <= CAPACITY
    ensures var n := |typed|;
            Push(typed[..n - 1][n - 1 - k..], typed[n - 1]) ==
              typed[n - (if k == CAPACITY then CAPACITY - DROP + 1 else k + 1)..]
  {
    var n := |typed|;
    var ring := typed[..n - 1][n - 1 - k..];
    assert ring == typed[n - 1 - k..n - 1];
  }

  lemma HeldStep(n: nat)
    ensures Held(n + 1) == if Held(n) == CAPACITY then CAPACITY - DROP + 1 else Held(n) + 1
  {
    if n > CAPACITY {
      var d := n - CAPACITY - 1;
      if d % DROP == DROP - 1 {
        assert (d + 1) % DROP == 0;
      } else {
        assert (d + 1) % DROP == d % DROP + 1;
      }
    }
  }

  lemma PushKeepsSuffix<T>(typed: seq<T>)
    requires typed != []
    ensures Push(LastHeld(typed[..|typed| - 1]), typed[|typed| - 1]) == LastHeld(typed)
  {
    HeldStep(|typed| - 1);
    PushOntoSuffix(typed, Held(|typed| - 1));
  }

  /** The ring is exactly the last Held(n) of the n bytes typed since the last flush. */
  lemma {:induction false} RingIsSuffix<T>(typed: seq<T>)
    ensures PushAll(typed) == LastHeld(typed)
  {
    if typed != [] {
      RingIsSuffix(typed[..|typed| - 1]);
      PushKeepsSuffix(typed);
    }
  }

  // ---------------------------------------------------------------------------
  // Histories

  datatype ConnState = Connected | Reconnecting | GaveUp

  datatype Event<T> = Typed(c: T, state: ConnState) | Flushed | FlushFailed

  datatype Buffers<T> = Buffers(pipe: seq<T>, ring: seq<T>)

  function Step<T>(b: Buffers<T>, e: Event<T>): Buffers<T>
  {
    match e
    case Typed(c, Connected) => Buffers(b.pipe + [c], b.ring)
    case Typed(c, Reconnecting) => Buffers(b.pipe, Push(b.ring, c))
    case Typed(_, GaveUp) => b
    case Flushed => Buffers(b.pipe + b.ring, [])
    case FlushFailed => b
  }

  function Play<T>(es: seq<Event<T>>): Buffers<T>
  {
    if es == [] then Buffers([], []) else Step(Play(es[..|es| - 1]), es[|es| - 1])
  }

  function AcceptedOf<T>(e: Event<T>): seq<T>
  {
    if e.Typed? && !e.state.GaveUp? then [e.c] else []
  }

  /** The bytes that were not discarded on arrival, in the order typed. */
  function Accepted<T>(es: seq<Event<T>>): seq<T>
  {
    if es == [] then
      []
    else
      Accepted(es[..|es| - 1]) + AcceptedOf(es[|es| - 1])
  }

  /** No byte arrives at a full ring. */
  predicate NoOverflow<T>(es: seq<Event<T>>)
  {
    es != [] ==>
      && NoOverflow(es[..|es| - 1])
      && (es[|es| - 1].Typed? && es[|es| - 1].state.Reconnecting? ==> |Play(es[..|es| - 1]).ring| < CAPACITY)
  }

  /** Whenever a byte is handled as connected, the ring has been flushed before. */
  predicate FlushedFirst<T>(es: seq<Event<T>>)
  {
    es != [] ==>
      && FlushedFirst(es[..|es| - 1])
      && (es[|es| - 1].Typed? && es[|es| - 1].state.Connected? ==> Play(es[..|es| - 1]).ring == [])
  }

  ghost predicate Distinct<T>(s: seq<T>)
  {
    forall i, j :: 0 <= i < j < |s| ==> s[i] != s[j]
  }

  /** The bytes typed while reconnecting since the last successful flush. */
  function SinceFlush<T>(es: seq<Event<T>>): seq<T>
  {
    if es == [] then
      []
    else
      match es[|es| - 1]
      case Flushed => []
      case Typed(c, Reconnecting) => SinceFlush(es[..|es| - 1]) + [c]
      case _ => SinceFlush(es[..|es| - 1])
  }

  /** In every history the ring holds exactly the last Held(n) of the n bytes typed since the
      last flush: all of them up to 4096, and never fewer than 3073 after that. */
  lemma RingOfHistory<T>(es: seq<Event<T>>)
    ensures Play(es).ring == LastHeld(SinceFlush(es))
  {
    RingIsReplayed(es);
    RingIsSuffix(SinceFlush(es));
  }

  lemma {:induction false} RingIsReplayed<T>(es: seq<Event<T>>)
    ensures Play(es).ring == PushAll(SinceFlush(es))
  {
    if es != [] {
      RingIsReplayed(es[..|es| - 1]);
      var typed, before := SinceFlush(es), SinceFlush(es[..|es| - 1]);
      assert typed != [] && typed != before ==> typed[..|typed| - 1] == before;
    }
  }

  lemma StepKeepsBytes<T>(b: Buffers<T>, e: Event<T>)
    requires e.Typed? && e.state.Reconnecting? ==> |b.ring| < CAPACITY
    ensures multiset(Step(b, e).pipe + Step(b, e).ring) == multiset(b.pipe + b.ring) + multiset(AcceptedOf(e))
  {
    match e
    case Typed(c, Connected) => BytesOf(b.pipe + [c], b.ring);
    case Typed(c, Reconnecting) => BytesOf(b.pipe, b.ring + [c]);
    case Flushed => BytesOf(b.pipe + b.ring, []);
    case _ =>
  }

  lemma BytesOf<T>(pipe: seq<T>, ring: seq<T>)
    ensures multiset(pipe + ring) == multiset(pipe) + multiset(ring)
  {
  }

  /** Without overflow no accepted byte is lost or doubled. */
  lemma {:induction false} NothingLost<T>(es: seq<Event<T>>)
    requires NoOverflow(es)
    ensures multiset(Play(es).pipe + Play(es).ring) == multiset(Accepted(es))
  {
    if es != [] {
      NothingLost(es[..|es| - 1]);
      StepKeepsBytes(Play(es[..|es| - 1]), es[|es| - 1]);
    }
  }

  lemma {:induction false} InOrder<T>(es: seq<Event<T>>)
    requires NoOverflow(es) && FlushedFirst(es)
    ensures Play(es).pipe + Play(es).ring == Accepted(es)
  {
    if es != [] {
      InOrder(es[..|es| - 1]);
    }
  }

  /** A byte that overtakes buffered ones stays in the wrong place for good. */
  lemma {:induction false} OvertakingShows<T>(es: seq<Event<T>>) returns (m: nat)
    requires NoOverflow(es) && !FlushedFirst(es) && Distinct(Accepted(es))
    ensures m < |Play(es).pipe| && m < |Accepted(es)| && Play(es).pipe[m] != Accepted(es)[m]
  {
    var init := es[..|es| - 1];
    var a := Accepted(init);
    assert a == Accepted(es)[..|a|];
    if FlushedFirst(init) {
      InOrder(init);
      m := |Play(init).pipe|;
      assert Accepted(es)[m] == a[m] == Play(init).ring[0];
      assert Accepted(es)[|a|] == es[|es| - 1].c;
    } else {
      assert Distinct(a) by {
        forall i, j | 0 <= i < j < |a| ensures a[i] != a[j] { assert Accepted(es)[i] != Accepted(es)[j]; }
      }
      m := OvertakingShows(init);
      assert Accepted(es)[m] == a[m];
    }
  }

  /** Main result: in histories without overflow, whose bytes can be told apart, pipe output
      followed by the ring is the typed input in order exactly when every byte handled as
      connected found the ring flushed. */
  lemma OrderKeptExactly<T>(es: seq<Event<T>>)
    requires NoOverflow(es) && Distinct(Accepted(es))
    ensures Play(es).pipe + Play(es).ring == Accepted(es) <==> FlushedFirst(es)
  {
    if FlushedFirst(es) {
      InOrder(es);
    } else {
      var m := OvertakingShows(es);
      assert (Play(es).pipe + Play(es).ring)[m] == Play(es).pipe[m];
    }
  }

  // ---------------------------------------------------------------------------
  // The terminal echo

  datatype Echo = Gray | Reset | OverflowWarning | Char(c: char)

  /** What the echoed items amount to: the characters and whether they are gray, the warnings, and
      whether the colour is left on (None if the colour codes are not properly paired). */
  datatype Screen = Screen(shown: seq<(char, bool)>, warnings: nat, gray: Option<bool>)

  function Show(s: Screen, e: Echo): Screen
  {
    match e
    case Gray => s.(gray := if s.gray == Some(false) then Some(true) else None)
    case Reset => s.(gray := if s.gray == Some(true) then Some(false) else None)
    case OverflowWarning => s.(warnings := s.warnings + 1)
    case Char(c) => s.(shown := s.shown + [(c, s.gray == Some(true))])
  }

  function ScreenOf(echo: seq<Echo>): Screen
  {
    if echo == [] then Screen([], 0, Some(false)) else Show(ScreenOf(echo[..|echo| - 1]), echo[|echo| - 1])
  }

  /** The bytes typed while reconnecting, each with the colour given. */
  function Unconfirmed(es: seq<Event<char>>, gray: bool): seq<(char, bool)>
  {
    if es == [] then
      []
    else
      var e := es[|es| - 1];
      Unconfirmed(es[..|es| - 1], gray) + if e.Typed? && e.state.Reconnecting? then [(e.c, gray)] else []
  }

  /** How often a byte found the ring full. */
  function Overflows(es: seq<Event<char>>): nat
  {
    if es == [] then
      0
    else
      var e, init := es[|es| - 1], es[..|es| - 1];
      Overflows(init) + if e.Typed? && e.state.Reconnecting? && |Play(init).ring| >= CAPACITY then 1 else 0
  }

  lemma HistoryOne(es: seq<Event<char>>, e: Event<char>)
    ensures Play(es + [e]) == Step(Play(es), e)
    ensures forall gray :: Unconfirmed(es + [e], gray) ==
                           Unconfirmed(es, gray) + if e.Typed? && e.state.Reconnecting? then [(e.c, gray)] else []
    ensures Overflows(es + [e]) ==
            if e.Typed? && e.state.Reconnecting? && |Play(es).ring| >= CAPACITY then Overflows(es) + 1
            else Overflows(es)
  {
    assert (es + [e])[..|es|] == es;
  }

  // ---------------------------------------------------------------------------
  // The buffer

  class BufferedStdin {
    const hasEcho: bool
    const noColor: bool
    const faulty: bool  // whether writes to the pipe may fail
    var ringBuf: seq<char>
    var pipe: seq<char>
    var echo: seq<Echo>
    var grayOpen: bool
    var enters: nat
    ghost var history: seq<Event<char>>

    /** The buffers are what the history makes them; the terminal has shown every unconfirmed byte,
        in gray unless colours are off, and one warning for each overflow; the colour codes are paired. */
    ghost predicate Valid()
      reads this
    {
      && Play(history) == Buffers(pipe, ringBuf)
      && ScreenOf(echo) == (if hasEcho then Screen(Unconfirmed(history, !noColor), Overflows(history), Some(grayOpen))
                            else Screen([], 0, Some(false)))
      && (grayOpen ==> hasEcho && !noColor)
    }

    constructor (hasEcho: bool, noColor: bool, faulty: bool)
      ensures Valid() && history == [] && this.hasEcho == hasEcho && this.noColor == noColor && this.faulty == faulty
    {
      this.hasEcho, this.noColor, this.faulty := hasEcho, noColor, faulty;
      ringBuf, pipe, echo, grayOpen, enters, history := [], [], [], false, 0, [];
    }

    /** The fate of a write to the pipe. */
    method Attempt() returns (ok: bool)
      ensures !faulty ==> ok
    {
      ok := true;
      if faulty {
        ok := *;
      }
    }

    /** A write to the local terminal. */
    method Print(e: Echo)
      modifies this`echo
      ensures ScreenOf(echo) == Show(old(ScreenOf(echo)), e)
    {
      assert (echo + [e])[..|echo|] == echo;
      echo := echo + [e];
    }

    method CloseGrayIfOpen()
      requires ScreenOf(echo).gray == Some(grayOpen) && (grayOpen ==> hasEcho && !noColor)
      modifies this`echo, this`grayOpen
      ensures ScreenOf(echo) == old(ScreenOf(echo)).(gray := Some(false)) && !grayOpen
    {
      if grayOpen && hasEcho && !noColor {
        Print(Reset);
        grayOpen := false;
      }
    }

    method HandleConnected(c: char) returns (ok: bool)
      requires Valid()
      modifies this
      ensures Valid() && !grayOpen && enters == old(enters)
      ensures history == if ok then old(history) + [Typed(c, Connected)] else old(history)
      ensures !ok ==> faulty
    {
      HistoryOne(history, Typed(c, Connected));
      CloseGrayIfOpen();
      ok := Attempt();
      if ok {
        pipe := pipe + [c];
        history := history + [Typed(c, Connected)];
      }
    }

    /** One byte read by Run; false stands for a failed pipe write, which ends Run. */
    method HandleByte(c: char, state: ConnState) returns (ok: bool)
      requires Valid()
      modifies this
      ensures Valid()
      ensures history == if ok then old(history) + [Typed(c, state)] else old(history)
      ensures !ok ==> state.Connected? && faulty
      ensures state.Connected? ==> !grayOpen
      ensures enters == old(enters) + if state.Reconnecting? && (c == '\r' || c == '\n') then 1 else 0
    {
      ok := true;
      match state {
        case Connected =>
          ok := HandleConnected(c);
        case Reconnecting =>
          HistoryOne(history, Typed(c, state));
          HandleReconnecting(c);
          history := history + [Typed(c, state)];
        case GaveUp =>
          HistoryOne(history, Typed(c, state));
          history := history + [Typed(c, state)];
      }
    }

    method HandleReconnecting(c: char)
      requires ScreenOf(echo).gray == Some(grayOpen) && (grayOpen ==> hasEcho && !noColor)
      modifies this`ringBuf, this`echo, this`grayOpen, this`enters
      ensures ringBuf == Push(old(ringBuf), c)
      ensures !hasEcho ==> echo == old(echo)
      ensures hasEcho ==>
                var was := old(ScreenOf(echo));
                var warnings := was.warnings + (if |old(ringBuf)| >= CAPACITY then 1 else 0);
                ScreenOf(echo) == Screen(was.shown + [(c, !noColor)], warnings, Some(grayOpen))
      ensures grayOpen <==> hasEcho && !noColor
      ensures enters == old(enters) + if c == '\r' || c == '\n' then 1 else 0
    {
      if |ringBuf| >= CAPACITY {
        var drop := DROP;
        if drop > |ringBuf| {
          drop := |ringBuf|;
        }
        ringBuf := ringBuf[drop..];
        if hasEcho {
          Print(OverflowWarning);
        }
      }
      ringBuf := ringBuf + [c];
      if hasEcho {
        if !grayOpen && !noColor {
          Print(Gray);
          grayOpen := true;
        }
        Print(Char(c));
      }
      if c == '\r' || c == '\n' {
        enters := enters + 1;
      }
    }

    /** Flush: a failed pipe write keeps the ring. */
    method Flush() returns (ok: bool)
      requires Valid()
      modifies this`ringBuf, this`pipe, this`echo, this`grayOpen, this`history
      ensures Valid() && !grayOpen
      ensures history == old(history) + [if ok then Flushed else FlushFailed]
      ensures ok ==> ringBuf == []
      ensures !ok ==> faulty && ringBuf == old(ringBuf) != []
    {
      CloseGrayIfOpen();
      ok := true;
      if |ringBuf| != 0 {
        ok := Attempt();
        if ok {
          pipe := pipe + ringBuf;
          ringBuf := [];
        }
      }
      HistoryOne(history, if ok then Flushed else FlushFailed);
      history := history + [if ok then Flushed else FlushFailed];
    }
  }
}
