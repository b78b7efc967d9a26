/**
  The buffered bidirectional stream buffer: a read buffer whose first four places keep the last
  characters read for putting back, and a write buffer flushed as a whole. The surrounding get and
  put operations are those of basic_streambuf (sections [streambuf.pub.get], [streambuf.pub.put],
  [streambuf.virt.get], [streambuf.virt.pback] and [streambuf.virt.put] of ISO C++17).
 */
module StreamBuf {
  import opened Wrappers

  function Min(a: nat, b: nat): nat {
    if a <= b then a else b
  }

  // ----- what the move before a refill does -----

  /** `move(buf + (4 - putback), gptr - putback, putback)`. */
  function MovedDown(buf: seq<char>, gptr: nat, putback: nat): (r: seq<char>)
    requires putback <= 4 <= |buf| && putback <= gptr <= |buf|
    ensures |r| == |buf|
  {
    seq(|buf|, i requires 0 <= i < |buf| => if 4 - putback <= i < 4 then buf[gptr - 4 + i] else buf[i])
  }

  /**
    At an end-of-file the move has been done but the pointers stay. What can still be put back is
    untouched by it, whatever the buffer holds, exactly when nothing has been read since the last
    refill or that refill kept nothing.
   */
  lemma EofKeepsPutback(eback: nat, gptr: nat, size: nat)
    requires eback <= 4 <= gptr <= size
    ensures (forall buf: seq<char>, i: nat | |buf| == size && eback <= i < gptr ::
               MovedDown(buf, gptr, Min(4, gptr - eback))[i] == buf[i]) <==>
            gptr == 4 || eback == 4
  {
    if gptr != 4 && eback != 4 {
      var buf := seq(size, i => if i == 3 then 'a' else 'b');
      assert MovedDown(buf, gptr, Min(4, gptr - eback))[3] == buf[gptr - 1];
      assert buf[3] != buf[gptr - 1];
    }
  }

  /** `block` stored at `offset`. */
  function Filled(buf: seq<char>, offset: nat, block: seq<char>): (r: seq<char>)
    requires offset + |block| <= |buf|
    ensures |r| == |buf|
  {
    buf[..offset] + block + buf[offset + |block|..]
  }

  /** Places lo..hi of the buffer hold the last characters delivered. */
  ghost predicate Holds(buf: seq<char>, lo: nat, hi: nat, delivered: seq<char>) {
    lo <= hi <= |buf| && hi - lo <= |delivered| && buf[lo..hi] == delivered[|delivered| - (hi - lo)..]
  }

  lemma HoldsAt(buf: seq<char>, lo: nat, hi: nat, delivered: seq<char>, i: nat)
    requires Holds(buf, lo, hi, delivered) && lo <= i < hi
    ensures buf[i] == delivered[|delivered| - (hi - i)]
  {
    assert buf[i] == buf[lo..hi][i - lo];
  }

  lemma HoldsFewer(buf: seq<char>, lo: nat, hi: nat, delivered: seq<char>, lo': nat)
    requires Holds(buf, lo, hi, delivered) && lo <= lo' <= hi
    ensures Holds(buf, lo', hi, delivered)
  {
    assert buf[lo'..hi] == buf[lo..hi][lo' - lo..];
  }

  lemma HoldsSame(a: seq<char>, b: seq<char>, lo: nat, hi: nat, delivered: seq<char>)
    requires Holds(a, lo, hi, delivered) && |a| == |b| && forall i | lo <= i < hi :: a[i] == b[i]
    ensures Holds(b, lo, hi, delivered)
  {
    assert a[lo..hi] == b[lo..hi];
  }

  /** What the move before a refill keeps intact, and which characters it will keep. */
  lemma KeptHolds(held: seq<char>, eback: nat, gptr: nat, putback: nat, delivered: seq<char>, disturbed: bool)
    requires eback <= 4 <= gptr <= |held| && putback == Min(4, gptr - eback)
    requires Holds(held, 4, gptr, delivered) && (!disturbed ==> Holds(held, eback, gptr, delivered))
    ensures var moved := MovedDown(held, gptr, putback);
            Holds(moved, 4, gptr, delivered) &&
            (!disturbed && (gptr == 4 || eback == 4) ==> Holds(moved, eback, gptr, delivered))
    ensures !disturbed || gptr - putback >= 4 ==> Holds(held, gptr - putback, gptr, delivered)
  {
    var moved := MovedDown(held, gptr, putback);
    HoldsSame(held, moved, 4, gptr, delivered);
    if !disturbed {
      HoldsFewer(held, eback, gptr, delivered, gptr - putback);
      if gptr == 4 || eback == 4 { HoldsSame(held, moved, eback, gptr, delivered); }
    }
    if gptr - putback >= 4 { HoldsFewer(held, 4, gptr, delivered, gptr - putback); }
  }

  /** A refill leaves the kept characters and the new block side by side. */
  lemma RefillHolds(held: seq<char>, gptr: nat, putback: nat, block: seq<char>, delivered: seq<char>)
    requires putback <= 4 < |held| && putback <= gptr <= |held| && 4 + |block| <= |held|
    ensures var now := Filled(MovedDown(held, gptr, putback), 4, block);
            Holds(now, 4, 4 + |block|, delivered + block) &&
            (Holds(held, gptr - putback, gptr, delivered) ==>
             Holds(now, 4 - putback, 4 + |block|, delivered + block))
  {
    var now := Filled(MovedDown(held, gptr, putback), 4, block);
    if Holds(held, gptr - putback, gptr, delivered) {
      var kept := now[4 - putback..4];
      assert kept == held[gptr - putback..gptr] by {
        forall i | 0 <= i < putback
          ensures kept[i] == held[gptr - putback + i]
        {
          assert kept[i] == MovedDown(held, gptr, putback)[4 - putback + i];
        }
      }
      assert now[4 - putback..4 + |block|] == kept + block;
    }
  }

  /** The put area: what the device took and what is pending is what was accepted. */
  ghost predicate WriteOk(buf: seq<char>, pptr: nat, output: seq<char>, accepted: seq<char>) {
    pptr <= |buf| && output + buf[..pptr] == accepted
  }

  lemma WholeStays(delivered: seq<char>, input: seq<char>, n: nat)
    requires n <= |input|
    ensures delivered + input[..n] + input[n..] == delivered + input
  {}

  /** Offsets of eback, gptr and egptr in the read buffer, as set by `setg`. */
  datatype GetArea = GetArea(eback: nat, gptr: nat, egptr: nat)

  /** All characters the device has delivered, and whether an end-of-file has disturbed the putback area. */
  datatype History = History(delivered: seq<char>, disturbed: bool)

  /**
    The get area: the pointers are in order, exactly min(4, characters consumed before the last
    refill) places precede place 4, and the places from there on (from place 4 on if an
    end-of-file has disturbed the putback area) hold the last characters delivered.
   */
  ghost predicate ReadOk(buf: seq<char>, get: GetArea, history: History) {
    && get.eback <= get.gptr <= get.egptr <= |buf| && 4 <= get.egptr
    && get.egptr - 4 <= |history.delivered|
    && get.eback == 4 - Min(4, |history.delivered| - (get.egptr - 4))
    && Holds(buf, 4, get.egptr, history.delivered)
    && (!history.disturbed ==> Holds(buf, get.eback, get.egptr, history.delivered))
  }

  lemma NextIs(buf: seq<char>, get: GetArea, h: History, input: seq<char>)
    requires ReadOk(buf, get, h) && get.gptr < get.egptr
    ensures get.gptr < |buf| && 0 <= |h.delivered| - (get.egptr - get.gptr) < |h.delivered|
    ensures get.gptr >= 4 || !h.disturbed ==>
              buf[get.gptr] == (h.delivered + input)[|h.delivered| - (get.egptr - get.gptr)]
  {
    hide Holds;
    HoldsBounds(buf, 4, get.egptr, h.delivered);
    if get.gptr >= 4 {
      HoldsAt(buf, 4, get.egptr, h.delivered, get.gptr);
    } else if !h.disturbed {
      HoldsAt(buf, get.eback, get.egptr, h.delivered, get.gptr);
    }
  }

  lemma HoldsBounds(buf: seq<char>, lo: nat, hi: nat, delivered: seq<char>)
    requires Holds(buf, lo, hi, delivered)
    ensures hi <= |buf| && hi - lo <= |delivered|
  {}

  ghost predicate SliceAt(s: seq<char>, whole: seq<char>, start: int) {
    0 <= start && start + |s| <= |whole| && forall i | 0 <= i < |s| :: s[i] == whole[start + i]
  }

  lemma IsSlice(s: seq<char>, whole: seq<char>, start: int)
    requires 0 <= start && start + |s| <= |whole|
    ensures s == [] ==> SliceAt(s, whole, start)
    ensures SliceAt(s, whole, start) ==> s == whole[start..start + |s|]
  {}

  lemma SliceExtended(s: seq<char>, whole: seq<char>, start: int, c: char)
    requires SliceAt(s, whole, start) && start + |s| < |whole| && c == whole[start + |s|]
    ensures SliceAt(s + [c], whole, start)
  {}

  lemma ReadOkMeans(buf: seq<char>, get: GetArea, h: History)
    requires ReadOk(buf, get, h)
    ensures get.eback <= 4 && get.eback <= get.gptr <= get.egptr <= |buf| && 4 <= get.egptr
    ensures get.egptr - 4 <= |h.delivered| && get.eback == 4 - Min(4, |h.delivered| - (get.egptr - 4))
    ensures Holds(buf, 4, get.egptr, h.delivered)
    ensures !h.disturbed ==> Holds(buf, get.eback, get.egptr, h.delivered)
  {
    hide Holds;
  }

  lemma ReadOkIf(buf: seq<char>, get: GetArea, h: History)
    requires get.eback <= get.gptr <= get.egptr <= |buf| && 4 <= get.egptr
    requires get.egptr - 4 <= |h.delivered| && get.eback == 4 - Min(4, |h.delivered| - (get.egptr - 4))
    requires Holds(buf, 4, get.egptr, h.delivered)
    requires !h.disturbed ==> Holds(buf, get.eback, get.egptr, h.delivered)
    ensures ReadOk(buf, get, h)
  {
    hide Holds;
  }

  /** At an end-of-file the pointers stay. */
  lemma EofOk(held: seq<char>, get: GetArea, h: History, putback: nat, now: seq<char>, h': History)
    requires ReadOk(held, get, h) && get.gptr == get.egptr && putback == Min(4, get.gptr - get.eback)
    requires now == MovedDown(held, get.gptr, putback)
    requires h' == h.(disturbed := h.disturbed || (get.gptr != 4 && get.eback != 4))
    ensures ReadOk(now, get, h')
  {
    hide ReadOk, Holds, MovedDown;
    ReadOkMeans(held, get, h);
    KeptHolds(held, get.eback, get.gptr, putback, h.delivered, h.disturbed);
    ReadOkIf(now, get, h');
  }

  /** At the end of the get area everything delivered has been consumed. */
  lemma PutbackIs(eback: nat, gptr: nat, delivered: nat, putback: nat)
    requires 4 <= gptr <= delivered + 4 && eback == 4 - Min(4, delivered - (gptr - 4))
    requires eback <= gptr && putback == Min(4, gptr - eback)
    ensures putback == Min(4, delivered) && putback <= 4 && putback <= gptr
  {
  }

  /** What a refill leaves in the buffer: the new block, and before it what was kept. */
  lemma RefillKeeps(held: seq<char>, eback: nat, gptr: nat, putback: nat, block: seq<char>, now: seq<char>,
                    delivered: seq<char>, all: seq<char>, disturbed: bool)
    requires eback <= 4 <= gptr <= |held| && 4 < |held| && 4 + |block| <= |held| && putback == Min(4, gptr - eback)
    requires Holds(held, 4, gptr, delivered) && (!disturbed ==> Holds(held, eback, gptr, delivered))
    requires now == Filled(MovedDown(held, gptr, putback), 4, block) && all == delivered + block
    ensures |now| == |held| && Holds(now, 4, 4 + |block|, all)
    ensures !(disturbed && gptr - putback < 4) ==> Holds(now, 4 - putback, 4 + |block|, all)
  {
    hide Holds, MovedDown, Filled;
    KeptHolds(held, eback, gptr, putback, delivered, disturbed);
    RefillHolds(held, gptr, putback, block, delivered);
  }

  /** A refill restores the get area, with min(4, characters consumed) of them to put back. */
  lemma RefillOk(held: seq<char>, get: GetArea, h: History, putback: nat, block: seq<char>,
                 now: seq<char>, get': GetArea, h': History)
    requires ReadOk(held, get, h) && get.gptr == get.egptr && putback == Min(4, get.gptr - get.eback)
    requires 4 < |held| && 4 + |block| <= |held|
    requires now == Filled(MovedDown(held, get.gptr, putback), 4, block)
    requires get' == GetArea(4 - putback, 4, 4 + |block|)
    requires h' == History(h.delivered + block, h.disturbed && get.gptr - putback < 4)
    ensures ReadOk(now, get', h') && putback == Min(4, |h.delivered|)
  {
    hide ReadOk, Holds, MovedDown, Filled, Min;
    ReadOkMeans(held, get, h);
    PutbackIs(get.eback, get.gptr, |h.delivered|, putback);
    RefillKeeps(held, get.eback, get.gptr, putback, block, now, h.delivered, h'.delivered, h.disturbed);
    ReadOkIf(now, get', h');
  }

  /**
    A stream with a buffer of six whose device delivers "ab", then "c", then nothing: after all
    three characters have been read the end-of-file turns the 'b' before the last one into a 'c'.
   */
  lemma EofDisturbsPutback()
    ensures
      var first := Filled(MovedDown("xxxxxx", 4, 0), 4, "ab");
      var second := Filled(MovedDown(first, 6, Min(4, 6 - 4)), 4, "c");
      && second == "xxabcb"
      && ReadOk(second, GetArea(2, 5, 5), History("abc", false))
      && MovedDown(second, 5, Min(4, 5 - 2)) == "xabccb"
  {
    var first := Filled(MovedDown("xxxxxx", 4, 0), 4, "ab");
    assert first == "xxxxab";
    var second := Filled(MovedDown(first, 6, 2), 4, "c");
    assert second == "xxabcb";
    assert second[2..5] == "abc"[0..] && second[4..5] == "abc"[2..];
    assert MovedDown(second, 5, 3) == "xabccb";
  }

  class BufferedBidirectionalStreamBuf {
    const bufSize: nat
    const readBuffer: array<char>
    const writeBuffer: array<char>
    var inMode: bool
    var outMode: bool
    var get: GetArea
    // offset of pptr in the write buffer
    var pptr: nat
    // the device: its answer to each call, what it has yet to deliver and what it has taken
    const onRead: (nat, int) -> int
    const onWrite: (nat, seq<char>) -> int
    var readCalls: nat
    var writeCalls: nat
    var input: seq<char>
    var output: seq<char>
    ghost var history: History
    // all characters accepted for writing
    ghost var accepted: seq<char>

    /** The number of characters consumed, counting a character put back as not consumed. */
    ghost function Position(): int
      reads this
    {
      |history.delivered| - (get.egptr - get.gptr)
    }

    /** Everything the device delivers, from the beginning to the end. */
    ghost function Whole(): seq<char>
      reads this
    {
      history.delivered + input
    }

    /** The device's answer if it were asked for `length` characters now. */
    function Delivery(length: int): (n: int)
      reads this
      ensures n <= length && n <= |input|
    {
      var n := onRead(readCalls, length);
      if n > length && length <= |input| then length
      else if n > |input| then |input|
      else n
    }

    /** What a refill now would get. */
    function NextBlock(): (n: int)
      reads this
    {
      Delivery(bufSize - 4)
    }

    /** The device was asked since call `since`, and its last answer was that there is nothing. */
    ghost predicate EndOfFileSeen(since: nat)
      reads this
    {
      readCalls > since && (input == [] || onRead(readCalls - 1, bufSize - 4) <= 0)
    }

    /** The device would take everything pending if it were asked now. */
    ghost predicate Takes()
      reads this, writeBuffer
    {
      pptr <= writeBuffer.Length && onWrite(writeCalls, writeBuffer[..pptr]) == pptr
    }

    ghost predicate Sizes() {
      4 < bufSize == readBuffer.Length == writeBuffer.Length && readBuffer != writeBuffer
    }

    ghost predicate Valid()
      reads this, readBuffer, writeBuffer
    {
      && Sizes()
      && ReadOk(readBuffer[..], get, history)
      && WriteOk(writeBuffer[..], pptr, output, accepted)
    }

    /** The next character to read is known to be the right one. */
    ghost predicate Reliable()
      reads this
    {
      get.gptr >= 4 || !history.disturbed
    }

    constructor (bufSize: nat, inMode: bool, outMode: bool, input: seq<char>,
                 onRead: (nat, int) -> int, onWrite: (nat, seq<char>) -> int)
      requires bufSize > 4
      ensures Valid() && Reliable() && fresh(readBuffer) && fresh(writeBuffer)
      ensures Position() == 0 && Whole() == input && accepted == [] && !history.disturbed
      ensures this.inMode == inMode && this.outMode == outMode && this.bufSize == bufSize
      ensures this.onRead == onRead && this.onWrite == onWrite && readCalls == writeCalls == 0 && output == []
    {
      this.bufSize, this.onRead, this.onWrite, readCalls, writeCalls := bufSize, onRead, onWrite, 0, 0;
      this.inMode, this.outMode, this.input := inMode, outMode, input;
      var r, w := new char[bufSize], new char[bufSize];
      readBuffer, writeBuffer := r, w;
      output, accepted, history := [], [], History([], false);
      // resetBuffers
      get, pptr := GetArea(4, 4, 4), 0;
    }

    // ----- reading -----

    /** The device delivers any number of characters up to `length`, or none (zero or negative). */
    method ReadFromDevice(offset: nat, length: nat) returns (n: int)
      requires offset + length <= readBuffer.Length && readBuffer != writeBuffer
      modifies this`input, this`readCalls, readBuffer
      ensures n == old(Delivery(length)) && readCalls == old(readCalls) + 1
      ensures n > 0 ==>
                readBuffer[..] == Filled(old(readBuffer[..]), offset, old(input)[..n]) && input == old(input)[n..]
      ensures n <= 0 ==> readBuffer[..] == old(readBuffer[..]) && input == old(input)
    {
      n := Delivery(length);
      readCalls := readCalls + 1;
      if n > 0 {
        forall i | 0 <= i < n {
          readBuffer[offset + i] := input[i];
        }
        assert readBuffer[..] == Filled(old(readBuffer[..]), offset, input[..n]);
        input := input[n..];
      }
    }

    method MoveDown(putback: nat)
      requires putback <= 4 < readBuffer.Length && putback <= get.gptr <= readBuffer.Length
      modifies readBuffer
      ensures readBuffer[..] == MovedDown(old(readBuffer[..]), get.gptr, putback)
    {
      forall i | 0 <= i < putback {
        readBuffer[4 - putback + i] := readBuffer[get.gptr - putback + i];
      }
      assert forall i | 0 <= i < readBuffer.Length ::
          readBuffer[i] == MovedDown(old(readBuffer[..]), get.gptr, putback)[i];
    }

    lemma AreaInOrder()
      requires Valid()
      ensures get.gptr <= get.egptr <= readBuffer.Length && 4 <= get.egptr
    {
    }

    /**
      Makes the next character available without consuming it. A refill keeps exactly the last
      min(4, characters consumed) characters before the read position.
     */
    method Underflow() returns (c: Option<char>)
      requires Valid()
      modifies this`get, this`input, this`readCalls, this`history, readBuffer
      ensures Valid() && Whole() == old(Whole()) && Position() == old(Position())
      ensures c.Some? <==> inMode && (old(get.gptr < get.egptr) || old(NextBlock()) > 0)
      ensures readCalls == old(readCalls) + (if inMode && old(get.gptr == get.egptr) then 1 else 0)
      ensures old(Reliable()) ==> Reliable()
      ensures c.Some? ==> get.gptr < get.egptr <= readBuffer.Length && c == Some(readBuffer[get.gptr])
      ensures inMode && old(get.gptr < get.egptr) ==>
                c.Some? && get.gptr == old(get.gptr) && get.eback == old(get.eback) &&
                history.disturbed == old(history.disturbed)
      ensures c.Some? && old(get.gptr == get.egptr) ==> get.gptr - get.eback == Min(4, Position())
      ensures c.Some? && !old(history.disturbed) ==> !history.disturbed
      ensures c.None? ==> get == old(get) && input == old(input)
      ensures c.None? && inMode ==> history.disturbed == (old(history.disturbed) || (get.gptr != 4 && get.eback != 4))
    {
      hide ReadOk, WriteOk, Holds, Sizes, Delivery, NextBlock, Position, Whole;
      AreaInOrder();
      if !inMode { return None; }
      if get.gptr < get.egptr { return Some(readBuffer[get.gptr]); }
      var n := Refill();
      if n <= 0 { return None; }
      AreaInOrder();
      return Some(readBuffer[get.gptr]);
    }

    /** The rest of `underflow` when everything held has been consumed. */
    method Refill() returns (n: int)
      requires Valid() && get.gptr == get.egptr
      modifies this`get, this`input, this`readCalls, this`history, readBuffer
      ensures Valid() && Whole() == old(Whole()) && Position() == old(Position())
      ensures n == old(NextBlock()) && readCalls == old(readCalls) + 1
      ensures n > 0 ==> 4 == get.gptr < get.egptr && get.gptr - get.eback == Min(4, Position())
      ensures n > 0 ==>
                history.disturbed == (old(history.disturbed) && old(get.gptr - Min(4, get.gptr - get.eback)) < 4)
      ensures n <= 0 ==> get == old(get) && input == old(input)
      ensures n <= 0 ==> history.disturbed == (old(history.disturbed) || (get.gptr != 4 && get.eback != 4))
    {
      hide Holds;
      var putback := get.gptr - get.eback;
      if putback > 4 { putback := 4; }
      ghost var held, area, h := readBuffer[..], get, history;
      hide ReadOk;
      hide WriteOk;
      hide MovedDown;
      hide Filled;
      MoveDown(putback);
      n := ReadFromDevice(4, bufSize - 4);
      assert writeBuffer[..] == old(writeBuffer[..]);
      if n <= 0 {
        history := history.(disturbed := history.disturbed || (get.gptr != 4 && get.eback != 4));
        EofOk(held, area, h, putback, readBuffer[..], history);
        return n;
      }
      ghost var block := old(input)[..n];
      WholeStays(h.delivered, old(input), n);
      history := History(h.delivered + block, h.disturbed && get.gptr - putback < 4);
      get := GetArea(4 - putback, 4, 4 + n);
      RefillOk(held, area, h, putback, block, readBuffer[..], get, history);
    }

    lemma PositionInRange()
      requires Valid()
      ensures 0 <= Position() <= |Whole()|
    {}

    /** A generous device has nothing more to give only when everything it delivers has been consumed. */
    lemma NoneMeansEnd()
      requires Valid()
      ensures Generous(onRead) && NextBlock() <= 0 && get.gptr >= get.egptr ==> Position() == |Whole()|
    {
      assert Generous(onRead) ==> onRead(readCalls, bufSize - 4) > 0;
    }

    lemma NextIsRight()
      requires Valid() && get.gptr < get.egptr
      ensures 0 <= Position() < |Whole()|
      ensures Reliable() ==> readBuffer[get.gptr] == Whole()[Position()]
    {
      hide ReadOk;
      hide WriteOk;
      NextIs(readBuffer[..], get, history, input);
    }

    /** `sbumpc`: read one character. */
    method Sbumpc() returns (c: Option<char>)
      requires Valid()
      modifies this`get, this`input, this`readCalls, this`history, readBuffer
      ensures Valid() && Whole() == old(Whole())
      ensures c.Some? <==> old(get.gptr < get.egptr) || (inMode && old(NextBlock()) > 0)
      ensures c.None? ==> get.gptr == get.egptr && (inMode ==> EndOfFileSeen(old(readCalls)))
      ensures readCalls == old(readCalls) + (if inMode && old(get.gptr == get.egptr) then 1 else 0)
      ensures old(Reliable()) ==> Reliable()
      ensures c.None? ==> Position() == old(Position())
      ensures c.Some? ==> Position() == old(Position()) + 1 <= |Whole()|
      ensures c.Some? && old(Reliable()) ==> c.value == Whole()[old(Position())]
      ensures c.Some? && !old(history.disturbed) ==> !history.disturbed
    {
      hide WriteOk;
      hide Holds;
      if get.gptr < get.egptr {
        NextIsRight();
        c := Some(readBuffer[get.gptr]);
        get := get.(gptr := get.gptr + 1);
      } else {
        c := Underflow();
        if c.Some? {
          NextIsRight();
          get := get.(gptr := get.gptr + 1);
        }
      }
    }

    /** `sungetc`: step back over the character consumed last, if it is still held. */
    method Sungetc() returns (c: Option<char>)
      requires Valid()
      modifies this`get
      ensures Valid() && Whole() == old(Whole())
      ensures c.Some? <==> get.eback < old(get.gptr)
      ensures c.Some? ==> Position() == old(Position()) - 1 && 0 <= Position() < |Whole()|
      ensures c.Some? && Reliable() ==> c.value == Whole()[Position()]
      ensures c.None? ==> get == old(get)
    {
      hide WriteOk;
      hide Holds;
      if get.eback < get.gptr {
        get := get.(gptr := get.gptr - 1);
        NextIsRight();
        return Some(readBuffer[get.gptr]);
      }
      return None;
    }

    lemma SeenSinceEarlier(since: nat, earlier: nat)
      requires earlier <= since
      ensures EndOfFileSeen(since) ==> EndOfFileSeen(earlier)
    {
    }

    /** Reading on for up to n characters: exactly the device's next ones, across any number of refills. */
    method Read(n: nat) returns (s: seq<char>)
      requires Valid() && Reliable()
      modifies this`get, this`input, this`readCalls, this`history, readBuffer
      ensures Valid() && Reliable() && Whole() == old(Whole())
      ensures 0 <= old(Position()) <= Position() == old(Position()) + |s| <= |Whole()|
      ensures s == Whole()[old(Position())..Position()]
      ensures |s| <= n && readCalls >= old(readCalls)
      ensures |s| < n ==> get.gptr == get.egptr && (inMode ==> EndOfFileSeen(old(readCalls)))
    {
      hide *;
      PositionInRange();
      s := [];
      ghost var start, whole, asked := Position(), Whole(), readCalls;
      IsSlice(s, whole, start);
      while |s| < n
        invariant Valid() && Reliable() && Whole() == whole
        invariant 0 <= start && start + |s| == Position() <= |whole|
        invariant SliceAt(s, whole, start)
        invariant |s| <= n && readCalls >= asked
      {
        ghost var at, before := Position(), readCalls;
        var c := Sbumpc();
        assert c.Some? ==> c.value == whole[at];
        if c.None? {
          SeenSinceEarlier(before, asked);
          IsSlice(s, whole, start);
          return;
        }
        assert start + |s| < |whole| && c.value == whole[start + |s|];
        SliceExtended(s, whole, start, c.value);
        s := s + [c.value];
      }
      IsSlice(s, whole, start);
    }

    // ----- writing -----

    /** The device takes the whole block or nothing. */
    method WriteToDevice(n: nat) returns (r: int)
      requires n <= writeBuffer.Length
      modifies this`output, this`writeCalls
      ensures r == onWrite(old(writeCalls), writeBuffer[..n]) && writeCalls == old(writeCalls) + 1
      ensures r == n ==> output == old(output) + writeBuffer[..n]
      ensures r != n ==> output == old(output)
    {
      r := onWrite(writeCalls, writeBuffer[..n]);
      writeCalls := writeCalls + 1;
      if r == n { output := output + writeBuffer[..n]; }
    }

    /** The device is asked once for everything pending, and its answer decides. */
    method FlushBuffer() returns (r: int)
      requires Valid()
      modifies this`output, this`writeCalls, this`pptr
      ensures Valid() && writeCalls == old(writeCalls) + 1
      ensures r == if old(Takes()) then old(pptr) else -1
      ensures r != -1 ==> pptr == 0 && output == accepted
      ensures r == -1 ==> pptr == old(pptr) && output == old(output)
    {
      hide ReadOk;
      var n := pptr;
      r := WriteToDevice(n);
      if r == n {
        pptr := pptr - n;
        assert writeBuffer[..0] == [];
        return n;
      }
      return -1;
    }

    lemma WillingTakes()
      requires Valid()
      ensures Willing(onWrite) ==> Takes()
    {
      assert Willing(onWrite) ==> onWrite(writeCalls, writeBuffer[..pptr]) == pptr;
    }

    /** None is end-of-file, as argument and as result. */
    method Overflow(c: Option<char>) returns (r: Option<char>)
      requires Valid()
      modifies this`output, this`writeCalls, this`pptr, this`accepted, writeBuffer
      ensures Valid() && writeCalls == old(writeCalls) + (if outMode then 1 else 0)
      ensures r == if outMode && old(Takes()) then c else None
      ensures outMode && old(Takes()) ==> output == old(accepted) && pptr == if c.Some? then 1 else 0
      ensures accepted == if r.Some? then old(accepted) + [r.value] else old(accepted)
      ensures !(outMode && old(Takes())) ==>
                pptr == old(pptr) && output == old(output) && writeBuffer[..] == old(writeBuffer[..])
    {
      hide ReadOk;
      if !outMode { return None; }
      var flushed := FlushBuffer();
      if flushed == -1 { return None; }
      if c.Some? {
        writeBuffer[pptr] := c.value;
        pptr := pptr + 1;
        accepted := accepted + [c.value];
        assert writeBuffer[..pptr] == [c.value];
      }
      return c;
    }

    /** `sputc`: write one character; a failed flush loses nothing and does not record it. */
    method Sputc(c: char) returns (ok: bool)
      requires Valid()
      modifies this`output, this`writeCalls, this`pptr, this`accepted, writeBuffer
      ensures Valid()
      ensures ok <==> old(pptr) < bufSize || (outMode && old(Takes()))
      ensures writeCalls == old(writeCalls) + (if old(pptr) == bufSize && outMode then 1 else 0)
      ensures old(pptr) < bufSize ==> output == old(output)
      ensures accepted == if ok then old(accepted) + [c] else old(accepted)
      ensures !ok ==> pptr == old(pptr) && output == old(output)
    {
      hide ReadOk;
      if pptr < bufSize {
        ghost var before := writeBuffer[..pptr];
        writeBuffer[pptr] := c;
        pptr := pptr + 1;
        accepted := accepted + [c];
        assert writeBuffer[..pptr] == before + [c];
        return true;
      }
      var r := Overflow(Some(c));
      return r.Some?;
    }

    /** `sync`: after success everything accepted is with the device. */
    method Sync() returns (r: int)
      requires Valid()
      modifies this`output, this`writeCalls, this`pptr
      ensures Valid() && r == if old(pptr) == 0 || old(Takes()) then 0 else -1
      ensures writeCalls == old(writeCalls) + (if old(pptr) > 0 then 1 else 0)
      ensures r == 0 ==> output == accepted
      ensures r == -1 ==> pptr == old(pptr) && output == old(output)
    {
      hide ReadOk;
      if pptr > 0 {
        var flushed := FlushBuffer();
        if flushed == -1 { return -1; }
      }
      assert writeBuffer[..0] == [];
      return 0;
    }
  }

  // ----- whole runs, in both directions -----

  datatype Op = Get | Unget | Put(c: char) | Flush

  /** An operation with its answer. */
  datatype Event = Got(c: Option<char>) | Ungot(c: Option<char>) | Taken(ch: char, ok: bool) | Flushed(ok: bool)

  predicate Answers(op: Op, e: Event) {
    match op
    case Get => e.Got?
    case Unget => e.Ungot?
    case Put(c) => e.Taken? && e.ch == c
    case Flush => e.Flushed?
  }

  /** How an event moves the read position. */
  function Moved(e: Event): int {
    if e.Got? && e.c.Some? then 1 else if e.Ungot? && e.c.Some? then -1 else 0
  }

  /** What an event adds to the characters accepted for writing. */
  function Added(e: Event): seq<char> {
    if e.Taken? && e.ok then [e.ch] else []
  }

  function PositionAfter(start: int, events: seq<Event>): int {
    if events == [] then start
    else PositionAfter(start, events[..|events| - 1]) + Moved(events[|events| - 1])
  }

  function AcceptedIn(events: seq<Event>): seq<char> {
    if events == [] then []
    else AcceptedIn(events[..|events| - 1]) + Added(events[|events| - 1])
  }

  predicate NoEndOfFile(events: seq<Event>) {
    Got(None) !in events
  }

  /** At position p of `whole`, a read gives the character there and a step back the one before. */
  predicate RightAt(whole: seq<char>, p: int, e: Event) {
    && (e.Got? && e.c.Some? ==> 0 <= p < |whole| && e.c.value == whole[p])
    && (e.Ungot? && e.c.Some? ==> 0 < p <= |whole| && e.c.value == whole[p - 1])
  }

  /** Up to the first end-of-file every answer is the device's character at the read position. */
  predicate Right(whole: seq<char>, start: int, events: seq<Event>) {
    if events == [] then true
    else
      var before := events[..|events| - 1];
      && Right(whole, start, before)
      && (NoEndOfFile(before) ==> RightAt(whole, PositionAfter(start, before), events[|events| - 1]))
  }

  lemma OneMore(whole: seq<char>, start: int, events: seq<Event>, e: Event)
    ensures PositionAfter(start, events + [e]) == PositionAfter(start, events) + Moved(e)
    ensures AcceptedIn(events + [e]) == AcceptedIn(events) + Added(e)
    ensures NoEndOfFile(events + [e]) <==> NoEndOfFile(events) && e != Got(None)
    ensures Right(whole, start, events + [e]) <==>
            Right(whole, start, events) && (NoEndOfFile(events) ==> RightAt(whole, PositionAfter(start, events), e))
  {
    assert (events + [e])[..|events|] == events;
  }

  /** A device that delivers as long as it has anything left. */
  ghost predicate Generous(onRead: (nat, int) -> int) {
    forall k, length | length > 0 :: onRead(k, length) > 0
  }

  /** A device that takes every block. */
  ghost predicate Willing(onWrite: (nat, seq<char>) -> int) {
    forall k, block :: onWrite(k, block) == |block|
  }

  predicate Refused(e: Event) {
    (e.Taken? || e.Flushed?) && !e.ok
  }

  /** A device that always can is always used: nothing is refused, and a read fails only at the end. */
  predicate NeverFails(gives: bool, takes: bool, whole: seq<char>, start: int, events: seq<Event>) {
    forall i | 0 <= i < |events| ::
      && (takes ==> !Refused(events[i]))
      && (gives && events[i] == Got(None) ==> PositionAfter(start, events[..i]) == |whole|)
  }

  lemma NeverFailsOneMore(gives: bool, takes: bool, whole: seq<char>, start: int, events: seq<Event>, e: Event)
    requires NeverFails(gives, takes, whole, start, events) && (takes ==> !Refused(e))
    requires gives && e == Got(None) ==> PositionAfter(start, events) == |whole|
    ensures NeverFails(gives, takes, whole, start, events + [e])
  {
    hide PositionAfter;
    forall i | 0 <= i <= |events|
      ensures (events + [e])[..i] == events[..i]
    {
    }
    assert events[..|events|] == events;
  }

  method PerformGet(b: BufferedBidirectionalStreamBuf) returns (e: Event)
    requires b.Valid()
    modifies b`get, b`input, b`readCalls, b`history, b.readBuffer
    ensures b.Valid() && b.Whole() == old(b.Whole()) && e.Got?
    ensures b.Position() == old(b.Position()) + Moved(e)
    ensures old(b.Reliable()) ==> RightAt(b.Whole(), old(b.Position()), e) && b.Reliable()
    ensures !old(b.history.disturbed) && e != Got(None) ==> !b.history.disturbed
    ensures b.inMode && Generous(b.onRead) && e == Got(None) ==> old(b.Position()) == |b.Whole()|
  {
    hide ReadOk, WriteOk, Holds, Generous, BufferedBidirectionalStreamBuf.Valid;
    hide BufferedBidirectionalStreamBuf.Reliable, BufferedBidirectionalStreamBuf.NextBlock;
    hide BufferedBidirectionalStreamBuf.EndOfFileSeen;
    b.PositionInRange();
    b.NoneMeansEnd();
    var c := b.Sbumpc();
    e := Got(c);
  }

  method PerformUnget(b: BufferedBidirectionalStreamBuf) returns (e: Event)
    requires b.Valid()
    modifies b`get
    ensures b.Valid() && b.Whole() == old(b.Whole()) && e.Ungot?
    ensures b.Position() == old(b.Position()) + Moved(e)
    ensures b.Reliable() ==> RightAt(b.Whole(), old(b.Position()), e)
    ensures old(b.Reliable()) && e.c.None? ==> b.Reliable()
  {
    hide ReadOk, WriteOk, Holds, BufferedBidirectionalStreamBuf.Valid;
    hide BufferedBidirectionalStreamBuf.Reliable;
    b.PositionInRange();
    var c := b.Sungetc();
    e := Ungot(c);
  }

  method PerformWrite(b: BufferedBidirectionalStreamBuf, op: Op) returns (e: Event)
    requires b.Valid() && (op.Put? || op.Flush?)
    modifies b`output, b`writeCalls, b`pptr, b`accepted, b.writeBuffer
    ensures b.Valid() && Answers(op, e) && Moved(e) == 0 && !e.Got? && !e.Ungot?
    ensures b.accepted == old(b.accepted) + Added(e)
    ensures b.outMode && Willing(b.onWrite) ==> !Refused(e)
  {
    hide ReadOk, WriteOk, Willing, BufferedBidirectionalStreamBuf.Valid, BufferedBidirectionalStreamBuf.Takes;
    b.WillingTakes();
    if op.Put? {
      var ok := b.Sputc(op.c);
      e := Taken(op.c, ok);
    } else {
      var r := b.Sync();
      e := Flushed(r == 0);
    }
  }

  method Perform(b: BufferedBidirectionalStreamBuf, op: Op) returns (e: Event)
    requires b.Valid()
    modifies b`get, b`input, b`readCalls, b`history, b.readBuffer
    modifies b`output, b`writeCalls, b`pptr, b`accepted, b.writeBuffer
    ensures b.Valid() && b.Whole() == old(b.Whole()) && Answers(op, e)
    ensures b.Position() == old(b.Position()) + Moved(e)
    ensures b.accepted == old(b.accepted) + Added(e)
    ensures (if e.Ungot? then b.Reliable() else old(b.Reliable())) ==> RightAt(b.Whole(), old(b.Position()), e)
    ensures old(b.Reliable()) && !(e.Ungot? && e.c.Some?) ==> b.Reliable()
    ensures !old(b.history.disturbed) && e != Got(None) ==> !b.history.disturbed
    ensures b.inMode && Generous(b.onRead) && e == Got(None) ==> old(b.Position()) == |b.Whole()|
    ensures b.outMode && Willing(b.onWrite) ==> !Refused(e)
  {
    hide ReadOk, WriteOk, BufferedBidirectionalStreamBuf.Valid;
    if op.Get? {
      e := PerformGet(b);
    } else if op.Unget? {
      e := PerformUnget(b);
    } else {
      e := PerformWrite(b, op);
    }
  }

  /**
    Event i, with `reliable` saying whether the character at the read position was known to be the
    device's, before the first event and after each: a read needs it before, a step back after it.
   */
  predicate RightWhere(whole: seq<char>, start: int, events: seq<Event>, reliable: seq<bool>, i: nat)
    requires i < |events| && |reliable| == |events| + 1
  {
    && ((if events[i].Ungot? then reliable[i + 1] else reliable[i]) ==>
        RightAt(whole, PositionAfter(start, events[..i]), events[i]))
    // it is lost only by a step back into what an end-of-file has disturbed
    && (reliable[i] && !reliable[i + 1] ==>
        events[i].Ungot? && events[i].c.Some? && !NoEndOfFile(events[..i]))
  }

  predicate RightWhile(whole: seq<char>, start: int, events: seq<Event>, reliable: seq<bool>) {
    && |reliable| == |events| + 1 && reliable[0]
    && (forall i | 0 <= i < |events| :: RightWhere(whole, start, events, reliable, i))
  }

  lemma RightOneMore(whole: seq<char>, start: int, events: seq<Event>, reliable: seq<bool>, e: Event, next: bool)
    requires RightWhile(whole, start, events, reliable)
    requires (if e.Ungot? then next else reliable[|events|]) ==> RightAt(whole, PositionAfter(start, events), e)
    requires reliable[|events|] && !next ==> e.Ungot? && e.c.Some? && !NoEndOfFile(events)
    ensures RightWhile(whole, start, events + [e], reliable + [next])
  {
    hide RightAt, PositionAfter, NoEndOfFile;
    var es, rs := events + [e], reliable + [next];
    forall i | 0 <= i < |es|
      ensures RightWhere(whole, start, es, rs, i)
    {
      assert es[..i] == events[..i];
      assert events[..|events|] == events;
      if i < |events| {
        assert RightWhere(whole, start, events, reliable, i);
        assert es[i] == events[i] && rs[i] == reliable[i] && rs[i + 1] == reliable[i + 1];
      }
    }
  }

  /** Until the first end-of-file nothing is lost. */
  lemma {:induction false} ReliableUntilEof(
      whole: seq<char>, start: int, events: seq<Event>, reliable: seq<bool>, n: nat)
    requires RightWhile(whole, start, events, reliable) && n <= |events| && NoEndOfFile(events[..n])
    ensures reliable[n]
    decreases n
  {
    if n > 0 {
      assert NoEndOfFile(events[..n - 1]) by {
        assert events[..n] == events[..n - 1] + [events[n - 1]];
      }
      ReliableUntilEof(whole, start, events, reliable, n - 1);
      assert RightWhere(whole, start, events, reliable, n - 1);
    }
  }

  /** So a run that is right while reliable is right up to the first end-of-file. */
  lemma {:induction false} RightUntilEof(
      whole: seq<char>, start: int, events: seq<Event>, reliable: seq<bool>, n: nat)
    requires RightWhile(whole, start, events, reliable) && n <= |events|
    ensures Right(whole, start, events[..n])
    decreases n
  {
    if n > 0 {
      hide RightAt, PositionAfter;
      var e := events[n - 1];
      assert events[..n] == events[..n - 1] + [e];
      RightUntilEof(whole, start, events, reliable, n - 1);
      OneMore(whole, start, events[..n - 1], e);
      if NoEndOfFile(events[..n - 1]) {
        ReliableUntilEof(whole, start, events, reliable, n - 1);
        if e.Ungot? { ReliableUntilEof(whole, start, events, reliable, n); }
        assert RightWhere(whole, start, events, reliable, n - 1);
      }
    }
  }

  /**
    Any sequence of reads, steps back, writes and flushes. Until the first end-of-file every
    character read is the device's at the read position and each step back gives the one before;
    afterwards that goes on as long as no step back enters the disturbed places. What the device has
    taken followed by what is pending is what was accepted, in order. A device that takes every block
    is never reported as refusing, and one that delivers as long as it can ends only at its end.
   */
  method RunStream(b: BufferedBidirectionalStreamBuf, ops: seq<Op>)
      returns (events: seq<Event>, ghost reliable: seq<bool>)
    requires b.Valid() && !b.history.disturbed
    modifies b`get, b`input, b`readCalls, b`history, b.readBuffer
    modifies b`output, b`writeCalls, b`pptr, b`accepted, b.writeBuffer
    ensures b.Valid() && b.Whole() == old(b.Whole())
    ensures |events| == |ops| && forall i | 0 <= i < |ops| :: Answers(ops[i], events[i])
    ensures Right(b.Whole(), old(b.Position()), events)
    ensures RightWhile(b.Whole(), old(b.Position()), events, reliable) && reliable[|events|] == b.Reliable()
    ensures b.Position() == PositionAfter(old(b.Position()), events)
    ensures NeverFails(b.inMode && Generous(b.onRead), b.outMode && Willing(b.onWrite),
                       b.Whole(), old(b.Position()), events)
    ensures b.pptr <= b.writeBuffer.Length
    ensures b.output + b.writeBuffer[..b.pptr] == old(b.accepted) + AcceptedIn(events)
  {
    hide RightAt, Moved, Added, ReadOk, Right, RightWhile, PositionAfter, AcceptedIn, NoEndOfFile;
    hide NeverFails, Generous, Willing;
    events, reliable := [], [true];
    ghost var start, whole := b.Position(), b.Whole();
    ghost var gives, takes := b.inMode && Generous(b.onRead), b.outMode && Willing(b.onWrite);
    NothingYet(whole, start);
    for k := 0 to |ops|
      invariant b.Valid() && b.Whole() == whole
      invariant |events| == k && forall i | 0 <= i < k :: Answers(ops[i], events[i])
      invariant RightWhile(whole, start, events, reliable) && b.Position() == PositionAfter(start, events)
      invariant |reliable| == k + 1 && reliable[k] == b.Reliable()
      invariant NoEndOfFile(events) ==> !b.history.disturbed
      invariant b.accepted == old(b.accepted) + AcceptedIn(events)
      invariant NeverFails(gives, takes, whole, start, events)
    {
      var e := Perform(b, ops[k]);
      OneMore(whole, start, events, e);
      NeverFailsOneMore(gives, takes, whole, start, events, e);
      RightOneMore(whole, start, events, reliable, e, b.Reliable());
      events, reliable := events + [e], reliable + [b.Reliable()];
    }
    RightUntilEof(whole, start, events, reliable, |events|);
    assert events[..|events|] == events;
  }

  lemma NothingYet(whole: seq<char>, start: int)
    ensures Right(whole, start, []) && PositionAfter(start, []) == start
    ensures AcceptedIn([]) == [] && NoEndOfFile([]) && RightWhile(whole, start, [], [true])
    ensures forall gives, takes :: NeverFails(gives, takes, whole, start, [])
  {
  }
}
