/** The two ends of the serial bootloader: the command loop of boot.c and the loading client. */
module Bootloader {

  const ADDRESSES: int := 0x1_0000_0000   // 2^32
  const CHUNK: int := 16
  const SET: Byte := 97      // 'a'
  const WRITE: Byte := 119   // 'w'
  const READ: Byte := 114    // 'r'
  const VERSION: Byte := 118 // 'v'
  const JUMP: Byte := 106    // 'j'
  const OK: Byte := 79       // 'O'
  const ERROR: Byte := 69    // 'E'
  const ONE: Byte := 49      // '1'

  type Byte = v: int | 0 <= v < 256

  datatype Option<T> = None | Some(value: T)

  // ---------------------------------------------------------------- checksums

  /** Exclusive or, bit by bit. */
  function Xor(a: nat, b: nat): nat {
    if a == 0 && b == 0 then 0 else 2 * Xor(a / 2, b / 2) + (a + b) % 2
  }

  lemma {:induction false} XorBits(a: nat, b: nat)
    ensures Xor(a, b) / 2 == Xor(a / 2, b / 2) && Xor(a, b) % 2 == (a + b) % 2
  {
  }

  lemma {:induction false} XorCommutes(a: nat, b: nat)
    ensures Xor(a, b) == Xor(b, a)
  {
    if a != 0 || b != 0 { XorCommutes(a / 2, b / 2); }
  }

  lemma {:induction false} XorZero(a: nat)
    ensures Xor(a, 0) == a
  {
    if a != 0 { XorZero(a / 2); }
  }

  lemma XorZeros()
    ensures Xor(0, 0) == 0
  {
  }

  lemma {:induction false} Associates2(a: nat, b: nat, c: nat, x: nat, y: nat, l: nat, r: nat)
    requires x % 2 == (a + b) % 2 && y % 2 == (b + c) % 2
    requires l % 2 == (x + c) % 2 && r % 2 == (a + y) % 2 && l / 2 == r / 2
    ensures l == r
  {
    var p := a + b + c;
    assert l % 2 == p % 2;
    assert r % 2 == p % 2;
  }

  lemma Shrinks(a: nat, b: nat, c: nat)
    requires a + b + c != 0
    ensures a / 2 + b / 2 + c / 2 < a + b + c
  {
  }

  lemma {:induction false} XorAssociates(a: nat, b: nat, c: nat)
    ensures Xor(Xor(a, b), c) == Xor(a, Xor(b, c))
    decreases a + b + c
  {
    hide Xor;
    XorZeros();
    if a + b + c != 0 {
      var x, y := Xor(a, b), Xor(b, c);
      Shrinks(a, b, c);
      XorAssociates(a / 2, b / 2, c / 2);
      XorBits(a, b);
      XorBits(b, c);
      XorBits(x, c);
      XorBits(a, y);
      Associates2(a, b, c, x, y, Xor(x, c), Xor(a, y));
    }
  }

  lemma {:induction false} XorEqual(a: nat, b: nat)
    ensures Xor(a, b) == 0 <==> a == b
  {
    if a != 0 || b != 0 { XorEqual(a / 2, b / 2); }
  }

  lemma {:induction false} XorBound(a: nat, b: nat, bits: nat, top: nat)
    requires top == Power(bits) && a < top && b < top
    ensures Xor(a, b) < top
  {
    if bits > 0 { XorBound(a / 2, b / 2, bits - 1, Power(bits - 1)); }
  }

  function Power(bits: nat): nat { if bits == 0 then 1 else 2 * Power(bits - 1) }

  lemma XorByte(a: Byte, b: Byte)
    ensures Xor(a, b) < 256
  {
    hide Xor;
    assert Power(8) == 256;
    XorBound(a, b, 8, 256);
  }

  /** The exclusive or of all bytes. */
  function XorAll(s: seq<Byte>): nat {
    if s == [] then 0 else Xor(XorAll(s[..|s| - 1]), s[|s| - 1])
  }

  lemma {:induction false} XorAllByte(s: seq<Byte>)
    ensures XorAll(s) < 256
  {
    hide Xor;
    if s != [] {
      XorAllByte(s[..|s| - 1]);
      XorByte(XorAll(s[..|s| - 1]), s[|s| - 1]);
    }
  }

  lemma {:induction false} XorAllSnoc(s: seq<Byte>, x: Byte)
    ensures XorAll(s + [x]) == Xor(XorAll(s), x)
  {
    hide Xor;
    assert (s + [x])[..|s|] == s;
  }

  lemma {:induction false} XorAllPrefix(s: seq<Byte>, i: nat)
    requires i < |s|
    ensures XorAll(s[..i + 1]) == Xor(XorAll(s[..i]), s[i])
  {
    assert s[..i + 1] == s[..i] + [s[i]];
    XorAllSnoc(s[..i], s[i]);
  }

  /** Changing one byte changes the checksum by the difference. */
  lemma {:induction false} XorAllUpdate(s: seq<Byte>, i: nat, x: Byte)
    requires i < |s|
    ensures XorAll(s[i := x]) == Xor(XorAll(s), Xor(s[i], x))
    decreases |s|
  {
    hide Xor;
    var n := |s| - 1;
    var t := s[i := x];
    var a, z := XorAll(s[..n]), s[n];
    if i == n {
      assert t[..n] == s[..n];
      XorAssociates(a, z, Xor(z, x));
      XorAssociates(z, z, x);
      XorEqual(z, z);
      XorCommutes(0, x);
      XorZero(x);
    } else {
      assert t[..n] == s[..n][i := x];
      XorAllUpdate(s[..n], i, x);
      var d := Xor(s[i], x);
      XorAssociates(a, d, z);
      XorCommutes(d, z);
      XorAssociates(a, z, d);
    }
  }

  /** Payload followed by its checksum. */
  function Frame(payload: seq<Byte>): seq<Byte> {
    XorAllByte(payload);
    payload + [XorAll(payload)]
  }

  /** The last byte is the checksum of the bytes before it. */
  predicate Intact(frame: seq<Byte>)
    requires frame != []
  {
    XorAll(frame[..|frame| - 1]) == frame[|frame| - 1]
  }

  lemma {:induction false} IntactIsZero(frame: seq<Byte>)
    requires frame != []
    ensures Intact(frame) <==> XorAll(frame) == 0
  {
    hide Xor;
    XorEqual(XorAll(frame[..|frame| - 1]), frame[|frame| - 1]);
  }

  /** A frame with exactly one byte changed, in the payload or in the checksum, is not intact. */
  lemma {:induction false} CorruptionDetected(frame: seq<Byte>, i: nat, x: Byte)
    requires i < |frame| && Intact(frame) && frame[i] != x
    ensures !Intact(frame[i := x])
  {
    hide Xor;
    IntactIsZero(frame);
    IntactIsZero(frame[i := x]);
    XorAllUpdate(frame, i, x);
    XorEqual(frame[i], x);
    XorCommutes(0, Xor(frame[i], x));
    XorZero(Xor(frame[i], x));
  }

  // ---------------------------------------------------------------- addresses

  /** The low four bytes of an address, least significant first, as they lie in memory. */
  function AddressBytes(a: nat): (s: seq<Byte>)
    ensures |s| == 4
  {
    [a % 256, a / 256 % 256, a / 65536 % 256, a / 16777216 % 256]
  }

  /** The little-endian number of the bytes. */
  function Little(s: seq<Byte>): nat {
    if s == [] then 0 else s[0] + 256 * Little(s[1..])
  }

  lemma {:induction false} LittleFour(s: seq<Byte>)
    requires |s| == 4
    ensures Little(s) == s[0] + 256 * (s[1] as int) + 65536 * (s[2] as int) + 16777216 * (s[3] as int)
    ensures Little(s) < ADDRESSES
  {
    assert s[1..][1..] == s[2..] && s[2..][1..] == s[3..] && s[3..][1..] == [];
    assert Little(s[3..]) == s[3];
    assert Little(s[2..]) == s[2] + 256 * (s[3] as int);
    assert Little(s[1..]) == s[1] + 256 * Little(s[2..]);
  }

  /** The server decodes the address the client encoded, reduced to 32 bits. */
  lemma {:induction false} AddressRoundTrip(a: nat)
    ensures Little(AddressBytes(a)) == a % ADDRESSES
  {
    LittleFour(AddressBytes(a));
    hide Little;
    var q := a / 16777216;
    assert a / 65536 == (a / 256) / 256 && q == (a / 65536) / 256;
    assert a % ADDRESSES == a - ADDRESSES * (q / 256);
  }

  // ---------------------------------------------------------------- memory

  type Memory = map<int, Byte>

  function Peek(m: Memory, a: int): Byte {
    if a % ADDRESSES in m then m[a % ADDRESSES] else 0
  }

  /** memcpy of s to address a. */
  function Store(m: Memory, a: int, s: seq<Byte>): Memory {
    if s == [] then m else Store(m, a, s[..|s| - 1])[(a + |s| - 1) % ADDRESSES := s[|s| - 1]]
  }

  /** The n bytes from address a on. */
  function Fetch(m: Memory, a: int, n: nat): (s: seq<Byte>)
    ensures |s| == n
  {
    seq<Byte>(n, i requires 0 <= i < n => Peek(m, a + i))
  }

  /** How far b lies beyond a, going up and around. */
  function Offset(a: int, b: int): (d: int)
    ensures 0 <= d < ADDRESSES
  {
    (b - a) % ADDRESSES
  }

  lemma {:induction false} OffsetUnique(a: int, b: int, d: int)
    requires 0 <= d < ADDRESSES
    ensures Offset(a, b) == d <==> (a + d) % ADDRESSES == b % ADDRESSES
  {
    var q, r, t := (b - a) / ADDRESSES, (a + d) / ADDRESSES, b / ADDRESSES;
    assert b - a == q * ADDRESSES + Offset(a, b);
    assert a + d == r * ADDRESSES + (a + d) % ADDRESSES;
    assert b == t * ADDRESSES + b % ADDRESSES;
  }

  /** A store puts s at [a, a + |s|) and leaves every other byte alone. */
  lemma {:induction false} PeekStore(m: Memory, a: int, s: seq<Byte>, b: int)
    requires |s| <= ADDRESSES
    ensures Peek(Store(m, a, s), b) == if Offset(a, b) < |s| then s[Offset(a, b)] else Peek(m, b)
    decreases |s|
  {
    if s != [] {
      PeekStore(m, a, s[..|s| - 1], b);
      OffsetUnique(a, b, |s| - 1);
      hide Offset;
    }
  }

  lemma {:induction false} FetchStore(m: Memory, a: int, s: seq<Byte>)
    requires |s| <= ADDRESSES
    ensures Fetch(Store(m, a, s), a, |s|) == s
  {
    hide Store, Peek;
    forall i | 0 <= i < |s| ensures Peek(Store(m, a, s), a + i) == s[i] {
      OffsetUnique(a, a + i, i);
      PeekStore(m, a, s, a + i);
    }
  }

  lemma {:induction false} StoreAppend(m: Memory, a: int, s: seq<Byte>, t: seq<Byte>)
    ensures Store(m, a, s + t) == Store(Store(m, a, s), a + |s|, t)
    decreases |t|
  {
    if t == [] {
      assert s + t == s;
    } else {
      assert (s + t)[..|s + t| - 1] == s + t[..|t| - 1];
      StoreAppend(m, a, s, t[..|t| - 1]);
    }
  }

  lemma {:induction false} ModShift(a: int, k: int)
    ensures (a % ADDRESSES + k) % ADDRESSES == (a + k) % ADDRESSES
  {
    OffsetUnique(-k, a, (a % ADDRESSES + k) % ADDRESSES);
    var q := a / ADDRESSES;
    assert a == q * ADDRESSES + a % ADDRESSES;
  }

  lemma {:induction false} StoreWrapped(m: Memory, a: int, s: seq<Byte>)
    ensures Store(m, a % ADDRESSES, s) == Store(m, a, s)
    decreases |s|
  {
    if s != [] {
      StoreWrapped(m, a, s[..|s| - 1]);
      ModShift(a, |s| - 1);
    }
  }

  // ---------------------------------------------------------------- the server

  datatype Server = Server(mem: Memory, ptr: int, jumped: Option<int>)

  /** How many bytes follow a command byte. */
  function BodyLength(cmd: Byte): nat {
    if cmd == SET then 5 else if cmd == WRITE then 17 else 0
  }

  predicate Complete(input: seq<Byte>) {
    input != [] && |input| >= 1 + BodyLength(input[0])
  }

  function Advance(s: Server): Server { s.(ptr := (s.ptr + CHUNK) % ADDRESSES) }

  /** One turn of the command loop: the new state and the reply. */
  function Obey(s: Server, cmd: Byte, body: seq<Byte>): (Server, seq<Byte>)
    requires |body| == BodyLength(cmd)
  {
    if cmd == SET then
      if Intact(body) then (s.(ptr := Little(body[..4])), [OK]) else (s, [ERROR])
    else if cmd == WRITE then
      if Intact(body) then (Advance(s.(mem := Store(s.mem, s.ptr, body[..16]))), [OK]) else (s, [ERROR])
    else if cmd == READ then (Advance(s), Frame(Fetch(s.mem, s.ptr, 16)))
    else if cmd == VERSION then (s, [ONE])
    else if cmd == JUMP then (s.(jumped := Some(s.ptr)), [OK])
    else (s, [ERROR])
  }

  /** The protocol in the characters on the line. */
  lemma {:induction false} CommandsAre(s: Server, cmd: Byte, body: seq<Byte>)
    requires |body| == BodyLength(cmd)
    ensures BodyLength('a' as int) == 5 && BodyLength('w' as int) == 17
    ensures cmd !in {'a' as int, 'w' as int} ==> BodyLength(cmd) == 0
    ensures var ok, no, next := ['O' as int], (s, ['E' as int]), (s.ptr + 16) % 0x1_0000_0000;
            && (cmd == 'a' as int ==>
                  Obey(s, cmd, body) == if XorAll(body[..4]) == body[4] then (s.(ptr := Little(body[..4])), ok) else no)
            && (cmd == 'w' as int ==>
                  Obey(s, cmd, body) == if XorAll(body[..16]) != body[16] then no
                                        else (s.(mem := Store(s.mem, s.ptr, body[..16]), ptr := next), ok))
            && (cmd == 'r' as int ==> Obey(s, cmd, body) == (s.(ptr := next), Frame(Fetch(s.mem, s.ptr, 16))))
            && (cmd == 'v' as int ==> Obey(s, cmd, body) == (s, ['1' as int]))
            && (cmd == 'j' as int ==> Obey(s, cmd, body) == (s.(jumped := Some(s.ptr)), ok))
            && (cmd !in {'a' as int, 'w' as int, 'r' as int, 'v' as int, 'j' as int} ==> Obey(s, cmd, body) == no)
  {
    hide XorAll, Store, Little, Fetch;
  }

  datatype Outcome = Outcome(server: Server, output: seq<Byte>, rest: seq<Byte>)

  /** The loop over an input stream: it ends at a jump or blocks on an incomplete command. */
  function Run(s: Server, input: seq<Byte>): Outcome
    decreases |input|
  {
    if s.jumped != None || !Complete(input) then Outcome(s, [], input) else
    var n := 1 + BodyLength(input[0]);
    var (s', reply) := Obey(s, input[0], input[1..n]);
    var o := Run(s', input[n..]);
    Outcome(o.server, reply + o.output, o.rest)
  }

  /** The recursion of Run, with Obey's result named. */
  lemma {:induction false} RunTurn(s: Server, input: seq<Byte>, n: nat, s': Server, reply: seq<Byte>)
    requires s.jumped == None && Complete(input)
    requires n == 1 + BodyLength(input[0]) && (s', reply) == Obey(s, input[0], input[1..n])
    ensures var o := Run(s', input[n..]);
            Run(s, input) == Outcome(o.server, reply + o.output, o.rest)
  {
    hide Obey;
  }

  /** How the stream is cut into arrivals does not matter. */
  lemma {:induction false} RunResumes(s: Server, x: seq<Byte>, y: seq<Byte>)
    ensures var a := Run(s, x);
            var b := Run(a.server, a.rest + y);
            Run(s, x + y) == Outcome(b.server, a.output + b.output, b.rest)
    decreases |x|
  {
    hide Obey;
    if s.jumped == None && Complete(x) {
      var n := 1 + BodyLength(x[0]);
      var (s', reply) := Obey(s, x[0], x[1..n]);
      assert (x + y)[1..n] == x[1..n] && (x + y)[n..] == x[n..] + y;
      RunTurn(s, x, n, s', reply);
      RunTurn(s, x + y, n, s', reply);
      RunResumes(s', x[n..], y);
      hide Run;
      var a := Run(s', x[n..]);
      var b := Run(a.server, a.rest + y);
      assert reply + (a.output + b.output) == (reply + a.output) + b.output;
    }
  }

  /** A run that consumed everything is continued by the next bytes. */
  lemma {:induction false} RunThen(s: Server, x: seq<Byte>, y: seq<Byte>)
    requires Run(s, x).rest == []
    ensures var a := Run(s, x);
            var b := Run(a.server, y);
            Run(s, x + y) == Outcome(b.server, a.output + b.output, b.rest)
  {
    RunResumes(s, x, y);
    hide Run;
    assert [] + y == y;
  }

  // ---------------------------------------------------------------- frames on the line

  function SetFrame(a: nat): seq<Byte> { [SET] + Frame(AddressBytes(a)) }

  function WriteFrame(data: seq<Byte>): seq<Byte> { [WRITE] + Frame(data) }

  /** The client's frames byte by byte. */
  lemma {:induction false} FramesAre(a: nat, data: seq<Byte>)
    ensures var b0, b1, b2, b3 := a % 256, a / 256 % 256, a / 65536 % 256, a / 16777216 % 256;
            SetFrame(a) == ['a' as int, b0, b1, b2, b3, Xor(Xor(Xor(b0, b1), b2), b3)]
    ensures |WriteFrame(data)| == |data| + 2 && WriteFrame(data)[0] == 'w' as int
    ensures WriteFrame(data)[1..|data| + 1] == data && WriteFrame(data)[|data| + 1] == XorAll(data)
  {
    var s := AddressBytes(a);
    XorFour(s);
    hide XorAll, Xor;
  }

  lemma {:induction false} XorFour(s: seq<Byte>)
    requires |s| == 4
    ensures XorAll(s) == Xor(Xor(Xor(s[0], s[1]), s[2]), s[3])
  {
    NoBytes(s);
    XorAllPrefix(s, 0);
    XorAllPrefix(s, 1);
    XorAllPrefix(s, 2);
    XorAllPrefix(s, 3);
    assert s[..4] == s;
    XorCommutes(0, s[0]);
    XorZero(s[0]);
    hide Xor, XorAll;
  }

  /** What the line does to one request: nothing, or one byte behind the command byte is changed. */
  datatype Fault = Clean | Changed(at: nat, value: Byte)

  function Transmit(frame: seq<Byte>, fault: Fault): (r: seq<Byte>)
    ensures |r| == |frame|
  {
    if fault.Changed? && 1 <= fault.at < |frame| then frame[fault.at := fault.value] else frame
  }

  predicate Struck(frame: seq<Byte>, fault: Fault) { Transmit(frame, fault) != frame }

  /** A struck frame arrives with its command byte and without a valid checksum. */
  lemma {:induction false} StruckNotIntact(cmd: Byte, payload: seq<Byte>, fault: Fault)
    ensures var r := Transmit([cmd] + Frame(payload), fault);
            r[0] == cmd && (Intact(r[1..]) <==> !Struck([cmd] + Frame(payload), fault))
  {
    var f := Frame(payload);
    assert f[..|payload|] == payload;
    var r := Transmit([cmd] + f, fault);
    if Struck([cmd] + f, fault) {
      assert r[1..] == f[fault.at - 1 := fault.value];
      CorruptionDetected(f, fault.at - 1, fault.value);
    } else {
      assert r[1..] == f;
    }
  }

  /** A command alone on the line. */
  lemma {:induction false} RunAlone(s: Server, r: seq<Byte>)
    requires s.jumped == None && r != [] && |r| == 1 + BodyLength(r[0])
    ensures var (s', reply) := Obey(s, r[0], r[1..]);
            Run(s, r) == Outcome(s', reply, [])
  {
    var (s', reply) := Obey(s, r[0], r[1..]);
    assert r[1..|r|] == r[1..] && r[|r|..] == [];
    RunTurn(s, r, |r|, s', reply);
    assert Run(s', []) == Outcome(s', [], []);
  }

  lemma {:induction false} SetFrameObeyed(s: Server, a: nat, fault: Fault)
    requires s.jumped == None
    ensures Run(s, Transmit(SetFrame(a), fault)) ==
            if Struck(SetFrame(a), fault) then Outcome(s, [ERROR], [])
            else Outcome(s.(ptr := a % ADDRESSES), [OK], [])
  {
    var r := Transmit(SetFrame(a), fault);
    StruckNotIntact(SET, AddressBytes(a), fault);
    RunAlone(s, r);
    AddressRoundTrip(a);
    hide Run, AddressBytes, Little, XorAll, Intact;
    if !Struck(SetFrame(a), fault) {
      assert r[1..][..4] == AddressBytes(a);
    }
  }

  lemma {:induction false} WriteFrameObeyed(s: Server, data: seq<Byte>, fault: Fault)
    requires s.jumped == None && |data| == 16
    ensures Run(s, Transmit(WriteFrame(data), fault)) ==
            if Struck(WriteFrame(data), fault) then Outcome(s, [ERROR], [])
            else Outcome(Advance(s.(mem := Store(s.mem, s.ptr, data))), [OK], [])
  {
    var r := Transmit(WriteFrame(data), fault);
    StruckNotIntact(WRITE, data, fault);
    RunAlone(s, r);
    hide Run, Store, XorAll, Intact, Advance;
    if !Struck(WriteFrame(data), fault) {
      assert r[1..][..16] == data;
    }
  }

  lemma {:induction false} JumpObeyed(s: Server)
    requires s.jumped == None
    ensures Run(s, [JUMP]) == Outcome(s.(jumped := Some(s.ptr)), [OK], [])
  {
    RunAlone(s, [JUMP]);
  }

  /** What was written can be read back as an intact frame, and leaves the pointer behind it. */
  lemma {:induction false} WriteReadBack(s: Server, a: nat, data: seq<Byte>)
    requires s.jumped == None && |data| == 16
    ensures var o := Run(s, SetFrame(a) + WriteFrame(data) + SetFrame(a) + [READ]);
            && o.output == [OK, OK, OK] + Frame(data) && o.rest == []
            && o.server == Server(Store(s.mem, a, data), (a + CHUNK) % ADDRESSES, None)
  {
    hide Run, Store, Fetch, Frame, SetFrame, WriteFrame, XorAll;
    var p := a % ADDRESSES;
    var s1 := s.(ptr := p);
    var s2 := Advance(s1.(mem := Store(s.mem, p, data)));
    var s3 := s2.(ptr := p);
    var f, w := SetFrame(a), WriteFrame(data);
    SetFrameObeyed(s, a, Clean);
    WriteFrameObeyed(s1, data, Clean);
    RunThen(s, f, w);
    SetFrameObeyed(s2, a, Clean);
    RunThen(s, f + w, f);
    RunThen(s, f + w + f, [READ]);
    RunAlone(s3, [READ]);
    FetchStore(s.mem, p, data);
    StoreWrapped(s.mem, a, data);
    ModShift(a, CHUNK);
  }

  // ---------------------------------------------------------------- the server's loops

  /** compute_16b_cksum. */
  method ComputeChecksum(buf: seq<Byte>) returns (c: nat)
    requires |buf| >= 16
    ensures c == XorAll(buf[..16])
  {
    hide Xor, XorAll;
    c := 0;
    var i := 0;
    NoBytes(buf);
    while i < 16
      invariant 0 <= i <= 16 && c == XorAll(buf[..i])
    {
      XorAllPrefix(buf, i);
      c := Xor(c, buf[i]);
      i := i + 1;
    }
  }

  lemma NoBytes(buf: seq<Byte>)
    ensures XorAll(buf[..0]) == 0
  {
  }

  /** conv_5b_to_int: the number of the first four bytes, if the fifth is their checksum. */
  method ConvertFive(buf: seq<Byte>) returns (num: Option<int>)
    requires |buf| == 5
    ensures num == if Intact(buf) then Some(Little(buf[..4])) else None
  {
    hide Xor, XorAll, Little;
    var n, cksum, i, weight := 0, 0, 0, 1;
    NoBytes(buf);
    ghost var weights := [1, 256, 65536, 16777216, ADDRESSES];
    while i < 4
      invariant 0 <= i <= 4 && cksum == XorAll(buf[..i]) && weight == weights[i]
      invariant n == Low(buf, i)
    {
      XorAllPrefix(buf, i);
      n := n + (buf[i] as int) * weight;
      cksum := Xor(cksum, buf[i]);
      weight := weight * 256;
      i := i + 1;
    }
    LittleFour(buf[..4]);
    num := if cksum == buf[4] then Some(n) else None;
  }

  /** The contribution of the first i bytes. */
  ghost function Low(b: seq<Byte>, i: nat): int
    requires i <= 4 <= |b|
  {
      (if i > 0 then b[0] as int else 0) + (if i > 1 then 256 * (b[1] as int) else 0)
    + (if i > 2 then 65536 * (b[2] as int) else 0) + (if i > 3 then 16777216 * (b[3] as int) else 0)
  }

  class Target {
    var mem: Memory
    var ptr: int
    var jumped: Option<int>
    var pending: seq<Byte>   // received and not yet consumed

    ghost function View(): Server
      reads this
    {
      Server(mem, ptr, jumped)
    }

    /** The bootloader starts with the pointer at 0x10000. */
    constructor (initial: Memory)
      ensures View() == Server(initial, 0x10000, None) && pending == []
    {
      mem, ptr, jumped, pending := initial, 0x10000, None, [];
    }

    /** The 'a' command. */
    method SetPointer(buf: seq<Byte>) returns (reply: seq<Byte>)
      requires |buf| == 5
      modifies this
      ensures (View(), reply) == Obey(old(View()), SET, buf) && pending == old(pending)
    {
      var num := ConvertFive(buf);
      hide Intact, Little;
      if num.Some? {
        ptr := num.value;
        reply := [OK];
      } else {
        reply := [ERROR];
      }
    }

    /** The 'w' command. */
    method WriteChunk(buf: seq<Byte>) returns (reply: seq<Byte>)
      requires |buf| == 17
      modifies this
      ensures (View(), reply) == Obey(old(View()), WRITE, buf) && pending == old(pending)
    {
      var c := ComputeChecksum(buf);
      hide Store, XorAll;
      if c == buf[16] {
        mem := Store(mem, ptr, buf[..16]);
        ptr := (ptr + CHUNK) % ADDRESSES;
        reply := [OK];
      } else {
        reply := [ERROR];
      }
    }

    /** The 'r' command. */
    method ReadChunk() returns (reply: seq<Byte>)
      modifies this
      ensures (View(), reply) == Obey(old(View()), READ, []) && pending == old(pending)
    {
      var buf := Fetch(mem, ptr, 16);
      var c := ComputeChecksum(buf);
      assert buf[..16] == buf;
      XorAllByte(buf);
      hide Fetch, XorAll;
      ptr := (ptr + CHUNK) % ADDRESSES;
      reply := buf + [c];
    }

    /** One command with the bytes that follow it. */
    method Command(cmd: Byte, buf: seq<Byte>) returns (reply: seq<Byte>)
      requires |buf| == BodyLength(cmd)
      modifies this
      ensures (View(), reply) == Obey(old(View()), cmd, buf) && pending == old(pending)
    {
      hide Obey;
      if cmd == SET {
        reply := SetPointer(buf);
      } else if cmd == WRITE {
        reply := WriteChunk(buf);
      } else if cmd == READ {
        reply := ReadChunk();
      } else {
        Others(View(), cmd);
        if cmd == JUMP { jumped := Some(ptr); }
        reply := if cmd == VERSION then [ONE] else if cmd == JUMP then [OK] else [ERROR];
      }
      assert buf == [] || cmd == SET || cmd == WRITE;
    }

    /** The command loop, until it jumps or waits for bytes that have not arrived. */
    method Serve(input: seq<Byte>) returns (output: seq<Byte>)
      modifies this
      ensures Run(old(View()), old(pending) + input) == Outcome(View(), output, pending)
    {
      hide Run, Obey;
      ghost var s0, all := View(), pending + input;
      pending := pending + input;
      output := [];
      NothingYet(s0, all);
      while jumped == None && Complete(pending)
        invariant var o := Run(View(), pending); Run(s0, all) == Outcome(o.server, output + o.output, o.rest)
        decreases |pending|
      {
        ghost var s, before := View(), pending;
        var n := 1 + BodyLength(pending[0]);
        var reply := Command(pending[0], pending[1..n]);
        pending := pending[n..];
        RunTurn(s, before, n, View(), reply);
        ghost var o := Run(View(), pending);
        assert output + (reply + o.output) == (output + reply) + o.output;
        output := output + reply;
      }
      Blocked(View(), pending);
    }
  }

  lemma NothingYet(s: Server, input: seq<Byte>)
    ensures var o := Run(s, input); o == Outcome(o.server, [] + o.output, o.rest)
  {
    hide Run;
  }

  lemma Blocked(s: Server, input: seq<Byte>)
    requires s.jumped != None || !Complete(input)
    ensures Run(s, input) == Outcome(s, [], input)
  {
  }

  lemma Others(s: Server, cmd: Byte)
    requires cmd != SET && cmd != WRITE && cmd != READ
    ensures Obey(s, cmd, []) == (if cmd == JUMP then s.(jumped := Some(s.ptr)) else s,
                                 if cmd == VERSION then [ONE] else if cmd == JUMP then [OK] else [ERROR])
  {
  }

  // ---------------------------------------------------------------- the client

  /** How many 16-byte pieces cover the image. */
  function Pieces(image: seq<Byte>): nat { (|image| + 15) / 16 }

  function Zeros(n: nat): (z: seq<Byte>)
    ensures |z| == n
  {
    seq<Byte>(n, i => 0)
  }

  /** The image, filled up with zeros to a multiple of 16 bytes. */
  function Padded(image: seq<Byte>): (p: seq<Byte>)
    ensures |p| == 16 * Pieces(image) && |p| < |image| + 16 && image <= p
    ensures forall i :: |image| <= i < |p| ==> p[i] == 0
  {
    image + Zeros(16 * Pieces(image) - |image|)
  }

  /** The k-th piece of the padded image. */
  function Piece(image: seq<Byte>, k: nat): (p: seq<Byte>)
    requires k < Pieces(image)
    ensures |p| == 16
  {
    Padded(image)[16 * k..16 * k + 16]
  }

  /** The k-th request of a session: load address, the pieces, jump address, jump. */
  function Request(image: seq<Byte>, load: nat, jump: nat, k: nat): seq<Byte>
    requires k < Pieces(image) + 3
  {
    if k == 0 then SetFrame(load)
    else if k <= Pieces(image) then WriteFrame(Piece(image, k - 1))
    else if k == Pieces(image) + 1 then SetFrame(jump)
    else [JUMP]
  }

  /** What the client's zeroed buffer holds after reading the rest of the file into it. */
  lemma {:induction false} BufferIsPiece(image: seq<Byte>, k: nat, r: nat)
    requires 16 * k < |image| && r == (if |image| - 16 * k < 16 then |image| - 16 * k else 16)
    ensures k < Pieces(image) && image[16 * k..16 * k + r] + Zeros(16 - r) == Piece(image, k)
  {
  }

  /** The server's state after load address and k pieces. */
  function AfterPieces(s: Server, image: seq<Byte>, load: nat, k: nat): Server
    requires k <= Pieces(image)
  {
    Server(Store(s.mem, load, Padded(image)[..16 * k]), (load + 16 * k) % ADDRESSES, s.jumped)
  }

  lemma {:induction false} NextPiece(s: Server, image: seq<Byte>, load: nat, k: nat)
    requires k < Pieces(image)
    ensures var t := AfterPieces(s, image, load, k);
            AfterPieces(s, image, load, k + 1) == Advance(t.(mem := Store(t.mem, t.ptr, Piece(image, k))))
  {
    hide Store, Padded;
    var p := Padded(image);
    assert p[..16 * (k + 1)] == p[..16 * k] + Piece(image, k);
    StoreAppend(s.mem, load, p[..16 * k], Piece(image, k));
    StoreWrapped(AfterPieces(s, image, load, k).mem, load + 16 * k, Piece(image, k));
    ModShift(load + 16 * k, CHUNK);
  }

  lemma {:induction false} NoPieces(s: Server, image: seq<Byte>, load: nat)
    ensures AfterPieces(s, image, load, 0) == s.(ptr := load % ADDRESSES)
  {
    assert Padded(image)[..0] == [];
  }

  /** All requests one after the other, without waiting for replies. */
  function Script(image: seq<Byte>, load: nat, jump: nat, k: nat): seq<Byte>
    requires k <= Pieces(image) + 3
  {
    if k == 0 then [] else Script(image, load, jump, k - 1) + Request(image, load, jump, k - 1)
  }

  function Acks(n: nat): (z: seq<Byte>)
    ensures |z| == n
  {
    seq<Byte>(n, i => OK)
  }

  /** Where a session stands after k clean requests. */
  function Stand(s: Server, image: seq<Byte>, load: nat, jump: nat, k: nat): Server
    requires k <= Pieces(image) + 3
  {
    if k == 0 then s
    else if k <= Pieces(image) + 1 then AfterPieces(s, image, load, k - 1)
    else
      var t := AfterPieces(s, image, load, Pieces(image)).(ptr := jump % ADDRESSES);
      if k == Pieces(image) + 2 then t else t.(jumped := Some(t.ptr))
  }

  /** A request that arrives clean takes the session one stand further; a struck one changes nothing. */
  lemma {:induction false} RequestObeyed(s: Server, image: seq<Byte>, load: nat, jump: nat, k: nat, fault: Fault)
    requires k < Pieces(image) + 3 && s.jumped == None
    ensures var r := Request(image, load, jump, k);
            var t := Stand(s, image, load, jump, k);
            Run(t, Transmit(r, fault)) ==
            if Struck(r, fault) then Outcome(t, [ERROR], [])
            else Outcome(Stand(s, image, load, jump, k + 1), [OK], [])
  {
    hide Run, Store, SetFrame, WriteFrame, XorAll, Padded, Piece;
    var t := Stand(s, image, load, jump, k);
    if k == 0 {
      SetFrameObeyed(s, load, fault);
      NoPieces(s, image, load);
    } else if k <= Pieces(image) {
      WriteFrameObeyed(t, Piece(image, k - 1), fault);
      NextPiece(s, image, load, k - 1);
    } else if k == Pieces(image) + 1 {
      SetFrameObeyed(t, jump, fault);
    } else {
      JumpObeyed(t);
    }
  }

  /** The server obeys the whole script however it arrives, ends in the jump, and acknowledges every request. */
  lemma {:induction false} ScriptLoads(s: Server, image: seq<Byte>, load: nat, jump: nat, k: nat)
    requires k <= Pieces(image) + 3 && s.jumped == None
    ensures Run(s, Script(image, load, jump, k)) == Outcome(Stand(s, image, load, jump, k), Acks(k), [])
  {
    hide Stand, Request, Run;
    if k == 0 {
      assert Acks(0) == [];
      Blocked(s, []);
      StandsAtStart(s, image, load, jump);
    } else {
      var x, r := Script(image, load, jump, k - 1), Request(image, load, jump, k - 1);
      ScriptLoads(s, image, load, jump, k - 1);
      RunThen(s, x, r);
      RequestObeyed(s, image, load, jump, k - 1, Clean);
      assert Acks(k) == Acks(k - 1) + [OK];
    }
  }

  lemma StandsAtStart(s: Server, image: seq<Byte>, load: nat, jump: nat)
    ensures Stand(s, image, load, jump, 0) == s
  {
  }

  /** An image that fits the address space lies at its address, and nothing else has changed. */
  lemma {:induction false} ImageLoaded(s: Server, image: seq<Byte>, load: nat, jump: nat)
    requires |Padded(image)| <= ADDRESSES
    ensures var t := Stand(s, image, load, jump, Pieces(image) + 3);
            && t.jumped == Some(jump % ADDRESSES)
            && Fetch(t.mem, load, |Padded(image)|) == Padded(image)
            && forall b :: Offset(load, b) >= |Padded(image)| ==> Peek(t.mem, b) == Peek(s.mem, b)
  {
    hide Store, Peek, Offset, Fetch;
    var p := Padded(image);
    assert p[..16 * Pieces(image)] == p;
    FetchStore(s.mem, load, p);
    forall b | Offset(load, b) >= |p| ensures Peek(Store(s.mem, load, p), b) == Peek(s.mem, b) {
      PeekStore(s.mem, load, p, b);
    }
  }

  /** Sends one request over the line and waits for the one-byte reply. */
  method Send(server: Target, request: seq<Byte>, fault: Fault) returns (acknowledged: bool)
    requires server.pending == [] && |Run(server.View(), Transmit(request, fault)).output| == 1
    modifies server
    ensures var o := Run(old(server.View()), Transmit(request, fault));
            server.View() == o.server && server.pending == o.rest && acknowledged == (o.output == [OK])
  {
    hide Run;
    assert [] + Transmit(request, fault) == Transmit(request, fault);
    var reply := server.Serve(Transmit(request, fault));
    acknowledged := reply[0] == OK;
  }

  /** Every request before the k-th arrived as it was sent. */
  ghost predicate CleanUpTo(image: seq<Byte>, load: nat, jump: nat, faults: nat -> Fault, k: nat)
    requires k <= Pieces(image) + 3
  {
    forall j: nat :: j < k ==> !Struck(Request(image, load, jump, j), faults(j))
  }

  /** One request of the session. */
  method Exchange(server: Target, ghost image: seq<Byte>, ghost load: nat, ghost jump: nat, faults: nat -> Fault,
                  request: seq<Byte>, k: nat, ghost s: Server) returns (acknowledged: bool)
    requires k < Pieces(image) + 3 && request == Request(image, load, jump, k) && s.jumped == None
    requires server.pending == [] && server.View() == Stand(s, image, load, jump, k)
    modifies server
    ensures server.pending == [] && acknowledged == !Struck(request, faults(k))
    ensures server.View() == Stand(s, image, load, jump, if acknowledged then k + 1 else k)
  {
    hide Run, Stand, Request, Transmit;
    RequestObeyed(s, image, load, jump, k, faults(k));
    acknowledged := Send(server, request, faults(k));
  }

  /** How much the k-th read of the file delivers when `ready(k)` bytes are ready; negative is an error. */
  function ReadCount(file: seq<Byte>, ready: nat -> int, k: nat): int {
    if ready(k) < 0 then -1 else Least(ready(k), Least(16, |file| - 16 * k))
  }

  function Least(a: int, b: int): int { if a <= b then a else b }

  /** How much of the file is read from the k-th read on, and whether an error ends it. A read of fewer
      than 16 bytes is taken for the end of the file. */
  function Cut(file: seq<Byte>, ready: nat -> int, k: nat): (r: (nat, bool))
    requires 16 * k <= |file|
    ensures 16 * k <= r.0 <= |file|
    decreases |file| - 16 * k
  {
    var n := ReadCount(file, ready, k);
    if n < 0 then (16 * k, true) else if n < 16 then (16 * k + n, false) else Cut(file, ready, k + 1)
  }

  /** The k-th read gives 16 bytes or all there are. */
  predicate Enough(file: seq<Byte>, ready: nat -> int, k: nat) {
    16 * k <= |file| ==> ready(k) >= Least(16, |file| - 16 * k)
  }

  /** The whole file is read if and only if no read is short before its end. */
  lemma {:induction false} CutWhole(file: seq<Byte>, ready: nat -> int, k: nat)
    requires 16 * k <= |file|
    ensures Cut(file, ready, k) == (|file|, false) <==> forall j: nat :: k <= j ==> Enough(file, ready, j)
    decreases |file| - 16 * k
  {
    var n := ReadCount(file, ready, k);
    if n == 16 {
      CutWhole(file, ready, k + 1);
      assert Enough(file, ready, k);
    } else if n >= 0 && 16 * k + n == |file| {
      assert forall j: nat :: k <= j ==> Enough(file, ready, j);
    } else {
      assert !Enough(file, ready, k);
    }
  }

  /** Where reading ends: at the first read that fails, or that gives fewer than 16 bytes. */
  lemma {:induction false} CutIs(file: seq<Byte>, ready: nat -> int, k: nat)
    returns (end: nat)
    requires 16 * k <= |file|
    ensures k <= end && 16 * end <= |file| && forall j: nat :: k <= j < end ==> ready(j) >= 16
    ensures var (n, failed) := Cut(file, ready, k);
            if ready(end) < 0 then failed && n == 16 * end
            else !failed && n == 16 * end + Least(ready(end), |file| - 16 * end) && n < 16 * end + 16
    decreases |file| - 16 * k
  {
    end := k;
    if ReadCount(file, ready, k) == 16 {
      end := CutIs(file, ready, k + 1);
    }
  }

  /** What one read says about the image, the part of the file that is read. */
  lemma {:induction false} CutStep(file: seq<Byte>, ready: nat -> int, k: nat, n: nat, failed: bool)
    requires 16 * k <= |file| && Cut(file, ready, k) == (n, failed)
    ensures var r := ReadCount(file, ready, k);
            && (r < 0 ==> failed && n == 16 * k)
            && (r >= 0 ==> r == Least(16, n - 16 * k) && file[16 * k..16 * k + r] == file[..n][16 * k..16 * k + r])
            && (0 <= r < 16 ==> !failed)
            && (r == 16 ==> 16 * (k + 1) <= |file| && Cut(file, ready, k + 1) == (n, failed))
  {
  }

  /** The load loop: one request for each read that delivers anything. */
  method SendPieces(server: Target, file: seq<Byte>, ready: nat -> int, load: nat, jump: nat, faults: nat -> Fault,
                    ghost s: Server, ghost image: seq<Byte>, ghost failed: bool)
    returns (ok: bool, acknowledged: nat)
    requires Cut(file, ready, 0) == (|image|, failed) && image == file[..|image|] && s.jumped == None
    requires server.pending == [] && server.View() == Stand(s, image, load, jump, 1)
             && CleanUpTo(image, load, jump, faults, 1)
    modifies server
    ensures server.pending == [] && 1 <= acknowledged <= Pieces(image) + 1
    ensures CleanUpTo(image, load, jump, faults, acknowledged)
    ensures ok ==> !failed && acknowledged == Pieces(image) + 1
    ensures !ok ==>
              (failed && acknowledged == Pieces(image) + 1) || Struck(Request(image, load, jump, acknowledged),
                                                                      faults(acknowledged))
    ensures server.View() == Stand(s, image, load, jump, acknowledged)
  {
    hide Struck, SetFrame, WriteFrame, Stand, Piece, Padded, Cut, ReadCount;
    var k := 0;
    ok, acknowledged := true, 1;
    while true
      invariant acknowledged == k + 1 && 16 * k <= |image| && ok && server.pending == []
      invariant server.View() == Stand(s, image, load, jump, k + 1) && Cut(file, ready, k) == (|image|, failed)
      invariant CleanUpTo(image, load, jump, faults, k + 1)
      decreases |image| - 16 * k
    {
      CutStep(file, ready, k, |image|, failed);
      var r := ReadCount(file, ready, k);
      if r < 0 {
        ok := false;
        return;
      }
      if r > 0 {
        BufferIsPiece(image, k, r);
        var buf := file[16 * k..16 * k + r] + Zeros(16 - r);
        ok := Exchange(server, image, load, jump, faults, WriteFrame(buf), k + 1, s);
        if !ok { return; }
        acknowledged := acknowledged + 1;
      }
      if r < 16 { break; }
      k := k + 1;
    }
  }

  /**
   * The client's whole session against the server, for the image it reads from the file. It gets through exactly
   * when the file is read without an error and no request was struck; then the image is loaded and the server has
   * jumped. Otherwise it stops at the error or at the first struck request, the server has not jumped, and its
   * memory holds the pieces acknowledged before.
   */
  method LoadAndJump(server: Target, file: seq<Byte>, ready: nat -> int, load: nat, jump: nat, faults: nat -> Fault)
    returns (ok: bool, acknowledged: nat, ghost image: seq<Byte>)
    requires server.pending == [] && server.jumped == None
    modifies server
    ensures image == file[..Cut(file, ready, 0).0]
    ensures server.pending == [] && acknowledged <= Pieces(image) + 3
    ensures ok <==> acknowledged == Pieces(image) + 3
    ensures CleanUpTo(image, load, jump, faults, acknowledged)
    ensures Cut(file, ready, 0).1 ==> acknowledged <= Pieces(image) + 1
    ensures !ok ==> || (Cut(file, ready, 0).1 && acknowledged == Pieces(image) + 1)
                    || Struck(Request(image, load, jump, acknowledged), faults(acknowledged))
    ensures server.View() == Stand(old(server.View()), image, load, jump, acknowledged)
    ensures server.jumped == if ok then Some(jump % ADDRESSES) else None
    ensures ok && |Padded(image)| <= ADDRESSES ==>
              && Fetch(server.mem, load, |Padded(image)|) == Padded(image)
              && forall b :: Offset(load, b) >= |Padded(image)| ==> Peek(server.mem, b) == Peek(old(server.mem), b)
  {
    hide Fetch, Peek, Offset, Struck, SetFrame, WriteFrame, Store, Padded, Piece, Cut, Stand;
    ghost var s, failed := server.View(), Cut(file, ready, 0).1;
    image := file[..Cut(file, ready, 0).0];
    StandJumped(s, image, load, jump);
    acknowledged := 0;
    ok := Exchange(server, image, load, jump, faults, SetFrame(load), 0, s);
    if !ok { return; }
    ok, acknowledged := SendPieces(server, file, ready, load, jump, faults, s, image, failed);
    if !ok { return; }
    ok := Exchange(server, image, load, jump, faults, SetFrame(jump), acknowledged, s);
    if !ok { return; }
    acknowledged := acknowledged + 1;
    ok := Exchange(server, image, load, jump, faults, [JUMP], acknowledged, s);
    if !ok { return; }
    acknowledged := acknowledged + 1;
    if |Padded(image)| <= ADDRESSES {
      ImageLoaded(s, image, load, jump);
    }
  }

  /** The server has jumped only after the last request. */
  lemma StandJumped(s: Server, image: seq<Byte>, load: nat, jump: nat)
    requires s.jumped == None
    ensures Stand(s, image, load, jump, 0) == s
    ensures forall k: nat :: k <= Pieces(image) + 3 ==>
              Stand(s, image, load, jump, k).jumped == if k == Pieces(image) + 3 then Some(jump % ADDRESSES) else None
  {
    hide Store, Padded;
  }
}
