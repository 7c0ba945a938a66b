/**
 * The keyboard ring of `kernel/keyboard.c`.  Pushes run whole, inside an interrupt; pop and
 * clear run in tasks with interrupts enabled, so a push may fall between any two of their
 * loads and stores.
 */
module Keyboard {
  import opened Common
  import opened Arith

  // ---------------------------------------------------------------- state

  /** Where the one consumer is inside pop or clear. */
  datatype Consumer =
    | Outside
    | PopSeen                   // pop found the indices different
    | PopLoaded(c: Byte)        // pop loaded the character, has not moved the index yet
    | ClearLoaded(w: nat, mark: nat)  // clear loaded the write index; `mark`: characters accepted by then

  /** `accepted`: every character pushes ever stored, in order.  `head`: how many of them have
      left.  `got`: which of them pop took, in order; `returned`: what pop returned for them;
      `dropped`: which of them a clear removed. */
  datatype Ring = Ring(buffer: seq<Byte>, read: nat, write: nat, at: Consumer,
                       accepted: seq<Byte>, head: nat, got: seq<nat>, returned: seq<Byte>,
                       dropped: set<nat>)

  /** What is in the ring, as a queue. */
  function Queue(s: Ring): seq<Byte>
    requires s.head <= |s.accepted|
  {
    s.accepted[s.head..]
  }

  // ---------------------------------------------------------------- individual loads and stores

  datatype Move = Push(c: Byte) | PopTest | PopLoad | PopStore | ClearLoad | ClearStore

  predicate Enabled(s: Ring, m: Move)
  {
    match m
    case Push(_) => true
    case PopTest => s.at == Outside
    case PopLoad => s.at == PopSeen
    case PopStore => s.at.PopLoaded?
    case ClearLoad => s.at == Outside
    case ClearStore => s.at.ClearLoaded?
  }

  function Between(lo: nat, hi: nat): (r: set<nat>)
    ensures forall i :: i in r <==> lo <= i < hi
    decreases hi
  {
    if lo < hi then Between(lo, hi - 1) + {hi - 1} else {}
  }

  function Step(s: Ring, m: Move): Ring
    requires |s.buffer| > 0 && s.read < |s.buffer| && s.write < |s.buffer| && Enabled(s, m)
  {
    var n := |s.buffer|;
    match m
    case Push(c) =>
      if c == 0 || (s.write + 1) % n == s.read then s
      else s.(buffer := s.buffer[s.write := c], write := (s.write + 1) % n, accepted := s.accepted + [c])
    case PopTest => if s.read == s.write then s else s.(at := PopSeen)
    case PopLoad => s.(at := PopLoaded(s.buffer[s.read]))
    case PopStore => s.(read := (s.read + 1) % n, at := Outside, head := s.head + 1, got := s.got + [s.head], returned := s.returned + [s.at.c])
    case ClearLoad => s.(at := ClearLoaded(s.write, |s.accepted|))
    case ClearStore => s.(read := s.at.w, at := Outside, head := s.at.mark, dropped := s.dropped + Between(s.head, s.at.mark))
  }

  /** The ring holds the characters that have not left, at most size - 1 of them, none of them
      NUL, each in the slot its number says; the consumer's loaded values are still right. */
  ghost predicate RingInv(s: Ring)
  {
    var n := |s.buffer|;
    && n >= 2 && s.head <= |s.accepted| <= s.head + n - 1
    && s.read == s.head % n && s.write == |s.accepted| % n
    && (forall i :: s.head <= i < |s.accepted| ==> s.buffer[i % n] == s.accepted[i])
    && (forall i :: 0 <= i < |s.accepted| ==> s.accepted[i] != 0)
    && |s.returned| == |s.got|
    && (forall i :: 0 <= i < |s.got| ==> s.got[i] < s.head && s.returned[i] == s.accepted[s.got[i]])
    && (forall i, j :: 0 <= i < j < |s.got| ==> s.got[i] < s.got[j])
    && (forall i :: 0 <= i < s.head ==> (i in s.got <==> i !in s.dropped))
    && (forall i :: i in s.dropped ==> i < s.head)
    && match s.at
       case Outside => true
       case PopSeen => s.head < |s.accepted|
       case PopLoaded(c) => s.head < |s.accepted| && c == s.accepted[s.head]
       case ClearLoaded(w, mark) => s.head <= mark <= |s.accepted| && w == mark % n
  }

  /** The full test of a push, in terms of the queue. */
  lemma FullTest(s: Ring)
    requires RingInv(s)
    ensures (s.write + 1) % |s.buffer| == s.read <==> |Queue(s)| == |s.buffer| - 1
  {
    var n := |s.buffer|;
    var w := |s.accepted|;
    ModNext(w, n);
    if w + 1 == s.head + n {
      DivShift(s.head, n);
    } else {
      ModEqual(s.head, w + 1, n);
    }
  }

  /** A push is accepted exactly when it is a character and the ring has room, and then it is
      appended; it never disturbs a character that is still in the ring. */
  lemma PushRefines(s: Ring, c: Byte)
    requires RingInv(s)
    ensures var s' := Step(s, Push(c));
      && RingInv(s') && s'.head == s.head && s'.got == s.got && s'.at == s.at
      && Queue(s') == (if c != 0 && |Queue(s)| < |s.buffer| - 1 then Queue(s) + [c] else Queue(s))
  {
    FullTest(s);
    ModNext(|s.accepted|, |s.buffer|);
    forall i | s.head <= i < |s.accepted| ensures i % |s.buffer| != s.write {
      ModEqual(i, |s.accepted|, |s.buffer|);
    }
  }

  lemma EmptyTest(s: Ring)
    requires RingInv(s)
    ensures s.read == s.write <==> Queue(s) == []
  {
    ModEqual(s.head, |s.accepted|, |s.buffer|);
  }

  /** A pop returns the front of the queue as it was when the pop began, whatever was pushed
      meanwhile, and removes exactly that character. */
  lemma PopRefines(s: Ring)
    requires RingInv(s) && s.at.PopLoaded?
    ensures var s' := Step(s, PopStore);
      && RingInv(s') && Queue(s) != [] && s.at.c == Queue(s)[0] && Queue(s') == Queue(s)[1..]
      && s'.accepted == s.accepted && s'.got == s.got + [s.head] && s.accepted[s.head] == s.at.c
  {
    ModNext(s.head, |s.buffer|);
  }

  /** A clear drops exactly the characters that were in the ring when it loaded the write
      index; later ones stay. */
  lemma ClearRefines(s: Ring)
    requires RingInv(s) && s.at.ClearLoaded?
    ensures var s' := Step(s, ClearStore);
      && RingInv(s') && s'.accepted == s.accepted && s'.head == s.at.mark && Queue(s') == s.accepted[s.at.mark..]
      && (forall i :: i in s'.dropped <==> i in s.dropped || s.head <= i < s.at.mark)
  {
  }

  /** Every load, store and push keeps the invariant, in any interleaving. */
  lemma StepKeeps(s: Ring, m: Move)
    requires RingInv(s) && Enabled(s, m)
    ensures RingInv(Step(s, m))
    ensures s.accepted <= Step(s, m).accepted && s.got <= Step(s, m).got
  {
    match m
    case Push(c) => PushRefines(s, c);
    case PopTest => EmptyTest(s);
    case PopLoad =>
    case PopStore => PopRefines(s);
    case ClearLoad =>
    case ClearStore => ClearRefines(s);
  }

  predicate Possible(s: Ring, moves: seq<Move>)
    decreases |moves|
  {
    moves == [] ||
    (|s.buffer| > 0 && s.read < |s.buffer| && s.write < |s.buffer| && Enabled(s, moves[0]) && Possible(Step(s, moves[0]), moves[1..]))
  }

  function After(s: Ring, moves: seq<Move>): Ring
    requires Possible(s, moves)
    decreases |moves|
  {
    if moves == [] then s else After(Step(s, moves[0]), moves[1..])
  }

  lemma {:induction false} RunKeeps(s: Ring, moves: seq<Move>)
    requires RingInv(s) && Possible(s, moves)
    ensures RingInv(After(s, moves)) && s.accepted <= After(s, moves).accepted && s.got <= After(s, moves).got
    decreases |moves|
  {
    if moves != [] {
      StepKeeps(s, moves[0]);
      RunKeeps(Step(s, moves[0]), moves[1..]);
    }
  }

  /** The empty ring of the given size. */
  function Fresh(n: nat): Ring
    requires n >= 2
  {
    Ring(seq(n, _ => 0), 0, 0, Outside, [], 0, [], [], {})
  }

  /** FIFO over every interleaving: the characters pop has returned are accepted characters in
      the order they were accepted, none twice, none that is still in the ring; every accepted
      character that left was returned or dropped by a clear, never both; the ring never holds
      more than size - 1 characters, and each of them is still in its slot. */
  lemma FifoEveryRun(n: nat, moves: seq<Move>)
    requires n >= 2 && Possible(Fresh(n), moves)
    ensures var s := After(Fresh(n), moves);
      && s.head <= |s.accepted| && |Queue(s)| <= n - 1 && |s.returned| == |s.got|
      && (forall i :: 0 <= i < |s.got| ==> s.got[i] < s.head && s.returned[i] == s.accepted[s.got[i]])
      && (forall i, j :: 0 <= i < j < |s.got| ==> s.got[i] < s.got[j])
      && (forall i :: 0 <= i < s.head ==> (i in s.got <==> i !in s.dropped))
      && |s.buffer| == n && (forall i :: s.head <= i < |s.accepted| ==> s.buffer[i % n] == s.accepted[i])
  {
    RunKeeps(Fresh(n), moves);
    SizeKept(Fresh(n), moves);
  }

  /** Without a clear nothing is skipped: pop has returned exactly the characters that left,
      in order, so accepted input is what was returned followed by what is still queued. */
  lemma NothingLost(n: nat, moves: seq<Move>)
    requires n >= 2 && Possible(Fresh(n), moves) && ClearStore !in moves
    ensures var s := After(Fresh(n), moves);
      s.head <= |s.accepted| && s.accepted == s.returned + Queue(s)
  {
    RunKeeps(Fresh(n), moves);
    GotAll(Fresh(n), moves);
    var s := After(Fresh(n), moves);
    assert s.returned == s.accepted[..s.head];
  }

  lemma {:induction false} GotAll(s: Ring, moves: seq<Move>)
    requires Possible(s, moves) && ClearStore !in moves
    requires |s.got| == s.head && forall i :: 0 <= i < |s.got| ==> s.got[i] == i
    ensures var s' := After(s, moves); |s'.got| == s'.head && forall i :: 0 <= i < |s'.got| ==> s'.got[i] == i
    decreases |moves|
  {
    if moves != [] {
      GotAll(Step(s, moves[0]), moves[1..]);
    }
  }

  lemma {:induction false} SizeKept(s: Ring, moves: seq<Move>)
    requires Possible(s, moves)
    ensures |After(s, moves).buffer| == |s.buffer|
    decreases |moves|
  {
    if moves != [] {
      SizeKept(Step(s, moves[0]), moves[1..]);
    }
  }

  // ---------------------------------------------------------------- the buffer in memory

  /** The static buffer and its two indices; the ghost fields are the history above. */
  class KeyboardBuffer {
    const buffer: array<Byte>
    var readIndex: nat
    var writeIndex: nat
    ghost var accepted: seq<Byte>
    ghost var head: nat
    ghost var got: seq<nat>
    ghost var returned: seq<Byte>
    ghost var dropped: set<nat>

    ghost function State(): Ring
      reads this, buffer
    {
      Ring(buffer[..], readIndex, writeIndex, Outside, accepted, head, got, returned, dropped)
    }

    constructor (n: nat)
      requires n >= 2
      ensures fresh(buffer) && buffer.Length == n && RingInv(State()) && Queue(State()) == []
    {
      buffer := new Byte[n](_ => 0);
      readIndex, writeIndex := 0, 0;
      accepted, head, got, returned, dropped := [], 0, [], [], {};
    }

    /** `keyboard_buffer_push`. */
    method PushChar(c: Byte)
      requires RingInv(State())
      modifies this, buffer
      ensures State() == Step(old(State()), Push(c)) && RingInv(State())
      ensures Queue(State()) == if c != 0 && |old(Queue(State()))| < buffer.Length - 1 then old(Queue(State())) + [c] else old(Queue(State()))
    {
      PushRefines(State(), c);
      if c == 0 { return; }
      var next := (writeIndex + 1) % buffer.Length;
      if next == readIndex { return; }
      buffer[writeIndex] := c;
      writeIndex := next;
      accepted := accepted + [c];
    }

    /** `keyboard_buffer_pop`; 0 when the ring is empty. */
    method Pop() returns (c: Byte)
      requires RingInv(State())
      modifies this
      ensures RingInv(State())
      ensures old(Queue(State())) == [] ==> c == 0 && Queue(State()) == []
      ensures old(Queue(State())) != [] ==> c != 0 && old(Queue(State())) == [c] + Queue(State())
    {
      EmptyTest(State());
      if readIndex == writeIndex { return 0; }
      ghost var s := Step(Step(State(), PopTest), PopLoad);
      StepKeeps(State(), PopTest);
      StepKeeps(Step(State(), PopTest), PopLoad);
      PopRefines(s);
      c := buffer[readIndex];
      readIndex := (readIndex + 1) % buffer.Length;
      head, got, returned := head + 1, got + [head], returned + [c];
      assert State() == Step(s, PopStore);
    }

    /** `keyboard_buffer_clear`. */
    method Clear()
      requires RingInv(State())
      modifies this
      ensures RingInv(State()) && Queue(State()) == [] && accepted == old(accepted)
    {
      ghost var s := Step(State(), ClearLoad);
      StepKeeps(State(), ClearLoad);
      ClearRefines(s);
      readIndex := writeIndex;
      dropped, head := dropped + Between(head, |accepted|), |accepted|;
      assert State() == Step(s, ClearStore);
    }
  }
}
