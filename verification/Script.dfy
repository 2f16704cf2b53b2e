/** Script elements: walking a script, reading a push and writing one (BRAddress.c). */
module Script {
  import opened Common
  import opened Words
  import opened VarInts

  const OP_PUSHDATA1: byte := 0x4c
  const OP_PUSHDATA2: byte := 0x4d
  const OP_PUSHDATA4: byte := 0x4e

  // ---------------------------------------------------------------- elements

  /** How many bytes after the opcode give the length of the data. */
  function LengthBytes(op: byte): nat {
    if op == OP_PUSHDATA1 then 1 else if op == OP_PUSHDATA2 then 2 else if op == OP_PUSHDATA4 then 4 else 0
  }

  /** The opcode and the length bytes. */
  function HeadSize(op: byte): nat {
    1 + LengthBytes(op)
  }

  /** How much data the element at off announces. */
  function DataLength(script: seq<byte>, off: nat): nat
    requires off < |script| && off + HeadSize(script[off]) <= |script|
  {
    var op := script[off];
    if LengthBytes(op) > 0 then LE(script[off + 1..off + 1 + LengthBytes(op)])
    else if op > OP_PUSHDATA4 then 0 else op
  }

  /** Where the element at off ends; None when the script breaks off within its head. */
  function Next(script: seq<byte>, off: nat): (n: Option<nat>)
    requires off < |script|
    ensures n.Some? ==> n.value > off
  {
    if off + HeadSize(script[off]) <= |script| then Some(off + HeadSize(script[off]) + DataLength(script, off))
      else None
  }

  /** From off on, the script consists of whole elements. */
  predicate Tiled(script: seq<byte>, off: nat)
    decreases |script| - off
  {
    off == |script| || (off < |script| && Next(script, off).Some? && Tiled(script, Next(script, off).value))
  }

  /** Where the elements start. */
  function Starts(script: seq<byte>, off: nat): seq<nat>
    decreases |script| - off
  {
    if off >= |script| then []
    else [off] + if Next(script, off).Some? then Starts(script, Next(script, off).value) else []
  }

  /** BRScriptElements with a null array: the number of elements, or 0 if they do not tile the script. */
  function Count(script: seq<byte>): nat {
    if Tiled(script, 0) then |Starts(script, 0)| else 0
  }

  /** A count other than 0 means exactly that there is a script and its elements tile it. */
  lemma CountIsTiled(script: seq<byte>)
    ensures Count(script) > 0 <==> script != [] && Tiled(script, 0)
  {
  }

  // ---------------------------------------------------------------- pushes

  /** The element that BRScriptPushData writes; its thresholds leave out the largest length of each form, and a length
      of more than 32 bits is cut off. */
  function Push(data: seq<byte>): seq<byte> {
    Head(|data|) + data
  }

  function Head(n: nat): (h: seq<byte>)
    ensures h != []
  {
    if n < 0x4c then [n]
    else if n < 0xff then [OP_PUSHDATA1, n]
    else if n < 0xffff then [OP_PUSHDATA2] + ToLE(n, 2)
    else [OP_PUSHDATA4] + ToLE(n % 0x1_0000_0000, 4)
  }

  function Pushes(ds: seq<seq<byte>>): seq<byte> {
    if ds == [] then [] else Push(ds[0]) + Pushes(ds[1..])
  }

  /** BRScriptData: the data of the element at off; an element without data gives a null pointer. */
  function Data(script: seq<byte>, off: nat): Option<seq<byte>>
    requires off < |script| && Next(script, off).Some? && Next(script, off).value <= |script|
  {
    var at := off + HeadSize(script[off]);
    if DataLength(script, off) > 0 then Some(script[at..Next(script, off).value]) else None
  }

  lemma OneByte(n: byte)
    ensures LE([n]) == n
  {
    assert [n][1..] == [];
    assert LE([]) == 0;
  }

  lemma Width(n: nat, k: nat, cap: nat)
    requires n < cap == Pow2(8 * k)
    ensures LE(ToLE(n, k)) == n
  {
    LEToLE(n, k);
  }

  lemma Capacities()
    ensures Pow2(8 * 2) == 0x1_0000 && Pow2(8 * 4) == 0x1_0000_0000
  {
    Powers();
    Pow2Add(8, 8);
  }

  lemma TailOf(op: byte, s: seq<byte>)
    ensures ([op] + s)[1..] == s
  {
  }

  lemma HeadIs(n: nat)
    requires n < 0x1_0000_0000
    ensures HeadSize(Head(n)[0]) == |Head(n)|
    ensures if LengthBytes(Head(n)[0]) > 0 then LE(Head(n)[1..]) == n else Head(n)[0] <= OP_PUSHDATA4 && Head(n)[0] == n
  {
    hide ToLE, LE, Pow2;
    Capacities();
    if n < 0x4c {
    } else if n < 0xff {
      OneByte(n);
      TailOf(OP_PUSHDATA1, [n]);
    } else if n < 0xffff {
      Width(n, 2, 0x1_0000);
      TailOf(OP_PUSHDATA2, ToLE(n, 2));
    } else {
      Width(n, 4, 0x1_0000_0000);
      TailOf(OP_PUSHDATA4, ToLE(n, 4));
    }
  }

  /** The four forms of a push; the opcodes 0x4c to 0x4e say how many length bytes follow, low byte first. */
  lemma PushForms(data: seq<byte>)
    ensures var s, n := Push(data), |data|;
            if n < 76 then s == [n] + data
            else if n < 255 then s == [0x4c, n] + data
            else if n < 65535 then |s| == 3 + n && s[0] == 0x4d && Spell(s[1], s[2], 0, 0) == n && s[3..] == data
            else
              |s| == 5 + n && s[0] == 0x4e && Spell(s[1], s[2], s[3], s[4]) == n % 0x1_0000_0000 && s[5..] == data
  {
    hide ToLE, LE, Pow2, Spell;
    var n := |data|;
    Capacities();
    if n < 255 {
    } else if n < 65535 {
      Width(n, 2, 0x1_0000);
      LESmall(ToLE(n, 2));
    } else {
      Width(n % 0x1_0000_0000, 4, 0x1_0000_0000);
      LESmall(ToLE(n % 0x1_0000_0000, 4));
    }
  }

  /** Where an element ends: behind its data, whose length is the opcode below 0x4c and in the bytes behind 0x4c to
      0x4e; any other opcode stands alone. */
  lemma ElementForms(script: seq<byte>, off: nat)
    requires off < |script|
    ensures var op, left := script[off], |script| - off;
            Next(script, off) ==
              if op < 0x4c then Some(off + 1 + op)
              else if op == 0x4c then (if left >= 2 then Some(off + 2 + script[off + 1]) else None)
              else if op == 0x4d then
                (if left >= 3 then Some(off + 3 + Spell(script[off + 1], script[off + 2], 0, 0)) else None)
              else if op == 0x4e then
                (if left >= 5 then
                   Some(off + 5 + Spell(script[off + 1], script[off + 2], script[off + 3], script[off + 4]))
                 else None)
              else Some(off + 1)
  {
    hide LE, Spell;
    var op := script[off];
    if op == 0x4c && off + 2 <= |script| {
      OneByte(script[off + 1]);
      assert script[off + 1..off + 2] == [script[off + 1]];
    } else if op == 0x4d && off + 3 <= |script| {
      LESmall(script[off + 1..off + 3]);
    } else if op == 0x4e && off + 5 <= |script| {
      LESmall(script[off + 1..off + 5]);
    }
  }

  lemma HeadAt(script: seq<byte>, off: nat, n: nat)
    requires n < 0x1_0000_0000 && At(script, off, Head(n))
    ensures off + HeadSize(script[off]) <= |script| && HeadSize(script[off]) == |Head(n)| &&
            DataLength(script, off) == n
  {
    var h := Head(n);
    HeadIs(n);
    assert script[off] == script[off..off + |h|][0];
    assert script[off + 1..off + |h|] == h[1..];
  }

  /** A push is one element, and its data is what was pushed. */
  lemma PushAt(script: seq<byte>, off: nat, data: seq<byte>)
    requires |data| < 0x1_0000_0000 && At(script, off, Push(data))
    ensures off < |script| && Next(script, off) == Some(off + |Push(data)|)
    ensures Data(script, off) == if data == [] then None else Some(data)
  {
    hide Head, LE, ToLE, LengthBytes;
    AtConcat(script, off, Head(|data|), data);
    HeadAt(script, off, |data|);
  }

  predicate Short(ds: seq<seq<byte>>) {
    forall k :: 0 <= k < |ds| ==> |ds[k]| < 0x1_0000_0000
  }

  /** How many bytes the pushes before number k take. */
  function Before(ds: seq<seq<byte>>, k: nat): nat
    requires k <= |ds|
  {
    if k == 0 then 0 else |Push(ds[0])| + Before(ds[1..], k - 1)
  }

  /** The strings ds have been pushed from off to the end of the script. */
  predicate Pushed(script: seq<byte>, off: nat, ds: seq<seq<byte>>) {
    Short(ds) && At(script, off, Pushes(ds)) && off + |Pushes(ds)| == |script|
  }

  /** The first push, and where the others start. */
  lemma FirstPush(script: seq<byte>, off: nat, ds: seq<seq<byte>>, next: nat)
    requires ds != [] && Pushed(script, off, ds) && next == off + |Push(ds[0])|
    ensures Pushed(script, next, ds[1..]) && IsPush(script, off, ds[0])
    ensures off < |script| && Next(script, off) == Some(next)
  {
    hide Next, Data, Push, At;
    AtConcat(script, off, Push(ds[0]), Pushes(ds[1..]));
    PushAt(script, off, ds[0]);
  }

  lemma StartsFrom(script: seq<byte>, off: nat, next: nat)
    requires off < |script| && Next(script, off) == Some(next)
    ensures Starts(script, off) == [off] + Starts(script, next) && Tiled(script, off) == Tiled(script, next)
  {
  }

  /** Walking a script of pushes finds as many elements, and nothing else. */
  lemma {:induction false} WalkPushes(script: seq<byte>, off: nat, ds: seq<seq<byte>>)
    requires Pushed(script, off, ds)
    ensures Tiled(script, off) && |Starts(script, off)| == |ds|
    decreases |ds|
  {
    if ds == [] {
    } else {
      var next := off + |Push(ds[0])|;
      FirstPush(script, off, ds, next);
      StartsFrom(script, off, next);
      WalkPushes(script, next, ds[1..]);
    }
  }

  /** The first k pushes take this many bytes; the others lie behind them. */
  lemma {:induction false} PushedFrom(script: seq<byte>, off: nat, ds: seq<seq<byte>>, k: nat)
    requires Pushed(script, off, ds) && k <= |ds|
    ensures Pushed(script, off + Before(ds, k), ds[k..])
    decreases |ds|
  {
    if k == 0 {
      assert ds[0..] == ds;
    } else {
      var next := off + |Push(ds[0])|;
      FirstPush(script, off, ds, next);
      PushedFrom(script, next, ds[1..], k - 1);
      assert ds[1..][k - 1..] == ds[k..];
    }
  }

  /** Each push starts right after the one before. */
  lemma {:induction false} WalkTo(script: seq<byte>, off: nat, ds: seq<seq<byte>>, k: nat)
    requires Pushed(script, off, ds) && k < |ds|
    ensures k < |Starts(script, off)| && Starts(script, off)[k] == off + Before(ds, k)
    decreases |ds|
  {
    hide Next, Pushed, Tiled, IsPush, Starts;
    var next := off + |Push(ds[0])|;
    FirstPush(script, off, ds, next);
    StartsFrom(script, off, next);
    if k == 0 {
    } else {
      WalkTo(script, next, ds[1..], k - 1);
    }
  }

  /** Push number k is where the walk finds element number k. */
  lemma PushFound(script: seq<byte>, ds: seq<seq<byte>>, k: nat)
    requires Pushed(script, 0, ds) && k < |ds|
    ensures k < |Starts(script, 0)| && Starts(script, 0)[k] == Before(ds, k) && IsPush(script, Before(ds, k), ds[k])
  {
    hide Next, Tiled, Starts, IsPush, Push;
    var at, rest := Before(ds, k), ds[k..];
    WalkTo(script, 0, ds, k);
    PushedFrom(script, 0, ds, k);
    FirstPush(script, at, rest, at + |Push(rest[0])|);
  }

  predicate IsPush(script: seq<byte>, off: nat, data: seq<byte>) {
    && off < |script| && Next(script, off).Some? && Next(script, off).value <= |script|
    && Data(script, off) == if data == [] then None else Some(data)
  }

  /** Parsing what was printed: as many elements as there were strings, and BRScriptData returns each of them. */
  lemma ParsePushes(ds: seq<seq<byte>>)
    requires Short(ds)
    ensures var s := Pushes(ds);
            && Count(s) == |ds| == |Starts(s, 0)|
            && forall k :: 0 <= k < |ds| ==> IsPush(s, Starts(s, 0)[k], ds[k]) && Starts(s, 0)[k] == Before(ds, k)
  {
    var s := Pushes(ds);
    WalkPushes(s, 0, ds);
    forall k | 0 <= k < |ds| ensures Starts(s, 0)[k] == Before(ds, k) && IsPush(s, Before(ds, k), ds[k]) {
      PushFound(s, ds, k);
    }
  }

  // ---------------------------------------------------------------- in place

  /** The switch: the end of the element at off, or somewhere past the script. */
  method Step(script: seq<byte>, off: nat, was: nat) returns (next: nat, len: nat)
    requires off < |script|
    ensures next > off && if Next(script, off).Some? then next == Next(script, off).value else next > |script|
  {
    len := was;
    var k := LengthBytes(script[off]);
    if k > 0 {
      if off + 1 + k <= |script| { len := LE(script[off + 1..off + 1 + k]); }
    } else {
      len := if script[off] > OP_PUSHDATA4 then 0 else script[off];
    }
    next := off + 1 + k + len;
  }

  lemma StartsNext(script: seq<byte>, off: nat, s: seq<nat>, i: nat)
    requires off < |script| && i <= |s| && s[i..] == Starts(script, off)
    ensures i < |s| && s[i] == off
    ensures s[i + 1..] == if Next(script, off).Some? then Starts(script, Next(script, off).value) else []
  {
    assert s[i + 1..] == s[i..][1..];
  }

  /** `if (elems && i < elemsCount) elems[i] = &script[off]`. */
  method Record(elems: array?<nat>, elemsCount: nat, i: nat, off: nat)
    requires elems != null ==> elemsCount <= elems.Length
    modifies elems
    ensures elems != null ==>
              forall k :: 0 <= k < elems.Length ==> elems[k] == if k == i && i < elemsCount then off else old(elems[k])
  {
    if elems != null && i < elemsCount { elems[i] := off; }
  }

  /** BRScriptElements; `elems` gets the offset of each element. The length of the element before is kept when a script
      breaks off within a head, as in the source; it makes no difference. */
  method BRScriptElements(elems: array?<nat>, elemsCount: nat, script: seq<byte>) returns (r: nat)
    requires elems != null ==> elemsCount <= elems.Length
    modifies elems
    ensures r == if elems == null || |Starts(script, 0)| <= elemsCount then Count(script) else 0
    ensures elems != null ==>
              var s := Starts(script, 0);
              forall k :: 0 <= k < elems.Length ==> elems[k] == if k < |s| && k < elemsCount then s[k]
                else old(elems[k])
  {
    ghost var s := Starts(script, 0);
    var off, i, len := 0, 0, 0;
    while off < |script|
      invariant i <= |s| && s[i..] == Starts(script, off)
      invariant Tiled(script, off) == Tiled(script, 0)
      invariant elems != null ==>
                  forall k :: 0 <= k < elems.Length ==> elems[k] == if k < i && k < elemsCount then s[k]
                    else old(elems[k])
      decreases |script| - off
    {
      Record(elems, elemsCount, i, off);
      StartsNext(script, off, s, i);
      off, len := Step(script, off, len);
      i := i + 1;
    }
    r := if (elems == null || i <= elemsCount) && off == |script| then i else 0;
  }

  /** BRScriptData on an element that lies within the script. */
  method BRScriptData(script: seq<byte>, off: nat) returns (data: Option<seq<byte>>, dataLen: nat)
    requires off < |script| && Next(script, off).Some? && Next(script, off).value <= |script|
    ensures data == Data(script, off) && dataLen == DataLength(script, off)
  {
    var at := off + 1;
    var k := LengthBytes(script[off]);
    if k > 0 {
      dataLen := LE(script[at..at + k]);
      at := at + k;
    } else {
      dataLen := if script[off] > OP_PUSHDATA4 then 0 else script[off];
    }
    data := if dataLen > 0 then Some(script[at..at + dataLen]) else None;
  }

  /** BRScriptPushData; with a null script the size that it needs. */
  method BRScriptPushData(script: array?<byte>, scriptLen: nat, data: seq<byte>) returns (r: nat)
    requires script != null ==> scriptLen <= script.Length
    modifies script
    ensures r == if script == null || |Push(data)| <= scriptLen then |Push(data)| else 0
    ensures script != null && r > 0 ==> Wrote(script, 0, Push(data))
    ensures script != null && r == 0 ==> script[..] == old(script[..])
  {
    var n := |data|;
    var len := n + if n < 0x4c then 1 else if n < 0xff then 1 + 1 else if n < 0xffff then 1 + 2 else 1 + 4;
    assert len == |Push(data)|;
    if script != null && len <= scriptLen {
      Put(script, 0, Head(n) + data);
    }
    r := if script == null || len <= scriptLen then len else 0;
  }
}
