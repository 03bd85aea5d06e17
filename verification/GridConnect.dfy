/** The GridConnect text form of CAN frames: a printer, and a parser that finds its way back after garbage. */
module GridConnect {
  import opened Bits
  import opened Wrappers

  const MAX_LEN: nat := 30
  const MAX_DATA: nat := 8

  datatype Frame = Frame(id: nat, data: seq<u8>)

  /** A CAN frame: a 29-bit ID and at most eight bytes. */
  predicate Valid(f: Frame) { f.id < 0x2000_0000 && |f.data| <= MAX_DATA }

  function HexChar(v: nat): char
    requires v < 16
  {
    "0123456789ABCDEF"[v]
  }

  function HexVal(c: char): (v: int)
    ensures -1 <= v < 16
  {
    if '0' <= c <= '9' then c as int - '0' as int
    else if 'A' <= c <= 'F' then c as int - 'A' as int + 10
    else if 'a' <= c <= 'f' then c as int - 'a' as int + 10
    else -1
  }

  // ---- printing ---------------------------------------------------------------------------

  /** The low `n` hex digits of `v`, the highest first. */
  function Hex(v: nat, n: nat): (s: string)
    ensures |s| == n
  {
    if n == 0 then "" else Hex(v / 16, n - 1) + [HexChar(v % 16)]
  }

  function HexBytes(data: seq<u8>): (s: string)
    ensures |s| == 2 * |data|
  {
    if data == [] then ""
    else
      var b := data[|data| - 1];
      HexBytes(data[..|data| - 1]) + [HexChar(b / 16), HexChar(b % 16)]
  }

  lemma HexStep(v: nat, n: nat)
    requires 0 < n
    ensures Hex(v, n) == Hex(v / 16, n - 1) + [HexChar(v % 16)]
  {
  }

  lemma BytesStep(data: seq<u8>)
    requires data != []
    ensures HexBytes(data) == HexBytes(data[..|data| - 1]) + [HexChar(data[|data| - 1] / 16), HexChar(data[|data| - 1] % 16)]
  {
  }

  lemma HexNone(v: nat)
    ensures Hex(v, 0) == ""
  {
  }

  lemma BytesNone(data: seq<u8>)
    ensures HexBytes(data[..0]) == ""
  {
  }

  function Encoded(f: Frame): string { ":X" + Hex(f.id, 8) + "N" + HexBytes(f.data) + ";\n" }

  function Shifted(v: nat, i: nat): nat { if i == 0 then v else Shifted(v, i - 1) / 16 }

  /** The eight digits of an ID. */
  method PutId(id: nat) returns (p: string)
    ensures p == Hex(id, 8)
  {
    hide Hex, HexChar;
    p := "";
    var i := 7;
    HexNone(Shifted(id, 8));
    while i >= 0
      invariant -1 <= i <= 7 && p == Hex(Shifted(id, i + 1), 7 - i)
    {
      HexStep(Shifted(id, i), 8 - i);
      p := p + [HexChar(Shifted(id, i) % 16)];
      i := i - 1;
    }
  }

  method PutData(data: seq<u8>) returns (p: string)
    requires |data| <= MAX_DATA
    ensures p == HexBytes(data)
  {
    hide HexBytes, HexChar;
    p := "";
    var i := 0;
    BytesNone(data);
    while i < |data| && i < 8
      invariant 0 <= i <= |data| && p == HexBytes(data[..i])
    {
      BytesStep(data[..i + 1]);
      assert data[..i + 1][..i] == data[..i];
      p := p + [HexChar(data[i] / 16 % 16), HexChar(data[i] % 16)];
      i := i + 1;
    }
    assert data[..i] == data;
  }

  /** Prints a frame into a buffer of `size` characters, which must have room for any frame and a final NUL. */
  method Encode(f: Frame, size: nat) returns (text: Option<string>)
    requires |f.data| <= MAX_DATA
    ensures text == if size < MAX_LEN then None else Some(Encoded(f))
    ensures text.Some? ==> |text.value| + 1 <= size
  {
    hide Hex, HexBytes;
    if size < MAX_LEN {
      return None;
    }
    var id := PutId(f.id);
    var data := PutData(f.data);
    return Some(":X" + id + "N" + data + ";\n");
  }

  // ---- parsing ----------------------------------------------------------------------------

  datatype Stage = Idle | Kind | Id | Data

  /** The parser: the ID so far, the whole bytes so far, and the upper half of the next one. */
  datatype Parser = Parser(stage: Stage, id: u32, data: seq<u8>, half: Option<u8>)

  datatype Parsed = Parsed(p: Parser, out: seq<Frame>)

  predicate Room(p: Parser) { |p.data| <= MAX_DATA && (p.half.Some? ==> |p.data| < MAX_DATA && p.half.value < 16) }

  function Step(p: Parser, c: char): (r: Parsed)
    requires Room(p)
    ensures Room(r.p)
  {
    match p.stage
    case Idle => Parsed(if c == ':' then Parser(Kind, 0, [], None) else p, [])
    case Kind => Parsed(p.(stage := if c == 'X' || c == 'x' then Id else Idle), [])
    case Id =>
      if c == 'N' || c == 'n' then Parsed(p.(stage := Data), [])
      else if HexVal(c) < 0 then Parsed(p.(stage := Idle), [])
      else Parsed(p.(id := Wrap(16 * (p.id as int) + HexVal(c))), [])
    case Data =>
      if c == ';' then Parsed(p.(stage := Idle), [Frame(p.id % 0x2000_0000, p.data)])
      else if HexVal(c) < 0 then Parsed(p.(stage := Idle), [])
      else if |p.data| == MAX_DATA then Parsed(p, [])
      else if p.half.None? then Parsed(p.(half := Some(HexVal(c))), [])
      else Parsed(p.(data := p.data + [16 * (p.half.value as int) + HexVal(c)], half := None), [])
  }

  /** What comes out of a text, and where it leaves the parser. */
  function Feed(p: Parser, s: string): (r: Parsed)
    requires Room(p)
    ensures Room(r.p)
  {
    if s == "" then Parsed(p, [])
    else
      var before := Feed(p, s[..|s| - 1]);
      var last := Step(before.p, s[|s| - 1]);
      Parsed(last.p, before.out + last.out)
  }

  lemma {:induction false} FeedBoth(p: Parser, s: string, t: string)
    requires Room(p)
    ensures Feed(p, s + t) == var a := Feed(p, s); var b := Feed(a.p, t); Parsed(b.p, a.out + b.out)
    decreases |t|
  {
    hide Step;
    if t == "" {
      assert s + t == s;
    } else {
      assert (s + t)[..|s + t| - 1] == s + t[..|t| - 1];
      FeedBoth(p, s, t[..|t| - 1]);
    }
  }

  lemma FeedOne(p: Parser, s: string, c: char)
    requires Room(p)
    ensures Feed(p, s + [c]) == var a := Feed(p, s); var b := Step(a.p, c); Parsed(b.p, a.out + b.out)
  {
    hide Step;
    assert (s + [c])[..|s|] == s;
  }

  lemma FeedTwo(p: Parser, s: string, c: char, d: char)
    requires Room(p)
    ensures Feed(p, s + [c, d]) == var a := Feed(p, s); var b := Step(a.p, c); var e := Step(b.p, d);
                                   Parsed(e.p, a.out + b.out + e.out)
  {
    hide Step, Feed;
    FeedOne(p, s, c);
    FeedOne(p, s + [c], d);
    assert s + [c] + [d] == s + [c, d];
  }

  lemma FeedNone(p: Parser)
    requires Room(p)
    ensures Feed(p, "") == Parsed(p, [])
  {
  }

  lemma HexBack(v: nat)
    requires v < 16
    ensures HexVal(HexChar(v)) == v && HexChar(v) != 'N' && HexChar(v) != 'n' && HexChar(v) != ';' && HexChar(v) != ':'
  {
  }

  // ---- one frame --------------------------------------------------------------------------

  /** `v` has at most `n` hex digits. */
  predicate Digits(v: nat, n: nat) { if n == 0 then v == 0 else Digits(v / 16, n - 1) }

  lemma EightDigits(v: nat)
    requires v < 0x1_0000_0000
    ensures Digits(v, 8)
  {
    assert Digits(v / 0x1000_0000, 1);
    assert Digits(v / 0x100_0000, 2);
    assert Digits(v / 0x10_0000, 3);
    assert Digits(v / 0x1_0000, 4);
    assert Digits(v / 0x1000, 5);
    assert Digits(v / 0x100, 6);
    assert Digits(v / 0x10, 7);
  }

  lemma IdDigit(p: Parser, v: nat)
    requires Room(p) && p.stage == Id && v < 0x1_0000_0000
    ensures Step(p.(id := v / 16), HexChar(v % 16)) == Parsed(p.(id := v), [])
  {
    hide HexChar, HexVal, Wrap;
    HexBack(v % 16);
    WrapSmall(v);
  }

  lemma DataByte(p: Parser, b: u8)
    requires Room(p) && p.stage == Data && p.half == None && |p.data| < MAX_DATA
    ensures var r := Step(p, HexChar(b / 16)); r.out == [] && Step(r.p, HexChar(b % 16)) == Parsed(p.(data := p.data + [b]), [])
  {
    hide HexChar, HexVal;
    HexBack(b / 16);
    HexBack(b % 16);
  }

  /** Digits of an ID read back as the ID. */
  lemma {:induction false} ReadId(p: Parser, v: nat, n: nat)
    requires Room(p) && p.stage == Id && p.id == 0 && Digits(v, n) && v < 0x1_0000_0000
    ensures Feed(p, Hex(v, n)) == Parsed(p.(id := v), [])
    decreases n
  {
    if n == 0 {
      FeedNone(p);
    } else {
      hide Feed, Hex, HexChar, Step;
      ReadId(p, v / 16, n - 1);
      HexStep(v, n);
      FeedOne(p, Hex(v / 16, n - 1), HexChar(v % 16));
      IdDigit(p, v);
    }
  }

  lemma ReadByte(p: Parser, front: seq<u8>, b: u8)
    requires Room(p) && p.stage == Data && p.half == None && |front| < MAX_DATA
    requires Feed(p, HexBytes(front)) == Parsed(p.(data := front), [])
    ensures Feed(p, HexBytes(front + [b])) == Parsed(p.(data := front + [b]), [])
  {
    hide Feed, HexBytes, HexChar, Step;
    BytesStep(front + [b]);
    assert (front + [b])[..|front|] == front;
    FeedTwo(p, HexBytes(front), HexChar(b / 16), HexChar(b % 16));
    DataByte(p.(data := front), b);
  }

  /** Data digits read back as the data. */
  lemma {:induction false} ReadData(p: Parser, data: seq<u8>)
    requires Room(p) && p.stage == Data && p.data == [] && p.half == None && |data| <= MAX_DATA
    ensures Feed(p, HexBytes(data)) == Parsed(p.(data := data), [])
    decreases |data|
  {
    if data == [] {
      FeedNone(p);
    } else {
      var front, b := data[..|data| - 1], data[|data| - 1];
      hide Feed, HexBytes;
      ReadData(p, front);
      ReadByte(p, front, b);
      assert front + [b] == data;
    }
  }

  /** From the idle state the text of a frame brings out exactly that frame. */
  lemma FromIdle(p: Parser, f: Frame)
    requires Room(p) && p.stage == Idle && Valid(f)
    ensures Feed(p, Encoded(f)).p.stage == Idle && Feed(p, Encoded(f)).out == [f]
  {
    hide Feed, Hex, HexBytes, HexVal, Wrap;
    var p2 := Parser(Id, 0, [], None);
    Opening(p);
    EightDigits(f.id);
    ReadId(p2, f.id, 8);
    FeedBoth(p, ":X", Hex(f.id, 8));
    FeedOne(p, ":X" + Hex(f.id, 8), 'N');
    var p4 := p2.(id := f.id, stage := Data);
    ReadData(p4, f.data);
    var head := ":X" + Hex(f.id, 8) + "N";
    FeedBoth(p, head, HexBytes(f.data));
    FeedOne(p, head + HexBytes(f.data), ';');
    FeedOne(p, head + HexBytes(f.data) + ";", '\n');
    assert head + HexBytes(f.data) + ";" + "\n" == Encoded(f);
  }

  lemma Opening(p: Parser)
    requires Room(p) && p.stage == Idle
    ensures Feed(p, ":X") == Parsed(Parser(Id, 0, [], None), [])
  {
    FeedNone(p);
    FeedOne(p, "", ':');
    assert "" + [':'] == ":";
    FeedOne(p, ":", 'X');
  }

  /** The text itself: the ID as eight hexadecimal digits, the highest first, and each byte as two, in capitals. `x` are the
      ID's digits. */
  lemma TextOf(f: Frame, x: seq<nat>, i: nat)
    requires Valid(f) && |x| == 8 && (forall k :: 0 <= k < 8 ==> x[k] < 16)
    requires f.id == 0x1000_0000 * x[0] + 0x100_0000 * x[1] + 0x10_0000 * x[2] + 0x1_0000 * x[3] + 0x1000 * x[4]
                     + 0x100 * x[5] + 0x10 * x[6] + x[7]
    ensures var t, hex := Encoded(f), "0123456789ABCDEF";
      && |t| == 13 + 2 * |f.data| && t[..2] == ":X" && t[10] == 'N' && t[|t| - 2..] == ";\n"
      && t[2..10] == [hex[x[0]], hex[x[1]], hex[x[2]], hex[x[3]], hex[x[4]], hex[x[5]], hex[x[6]], hex[x[7]]]
      && (i < |f.data| ==> t[11 + 2 * i] == hex[f.data[i] / 16] && t[12 + 2 * i] == hex[f.data[i] % 16])
  {
    hide Hex, HexBytes;
    IdText(f.id, x);
    if i < |f.data| {
      ByteText(f.data, i);
    }
    var t, body := Encoded(f), HexBytes(f.data);
    assert t == ":X" + Hex(f.id, 8) + "N" + body + ";\n";
    assert t[2..10] == Hex(f.id, 8);
    assert i < |f.data| ==> t[11 + 2 * i] == body[2 * i] && t[12 + 2 * i] == body[2 * i + 1];
  }

  lemma IdText(id: nat, x: seq<nat>)
    requires |x| == 8 && (forall k :: 0 <= k < 8 ==> x[k] < 16)
    requires id == 0x1000_0000 * x[0] + 0x100_0000 * x[1] + 0x10_0000 * x[2] + 0x1_0000 * x[3] + 0x1000 * x[4]
                   + 0x100 * x[5] + 0x10 * x[6] + x[7]
    ensures Hex(id, 8) == [HexChar(x[0]), HexChar(x[1]), HexChar(x[2]), HexChar(x[3]),
                           HexChar(x[4]), HexChar(x[5]), HexChar(x[6]), HexChar(x[7])]
  {
    hide HexChar, Hex;
    var v1 := x[0];
    var v2 := 16 * v1 + x[1];
    var v3 := 16 * v2 + x[2];
    var v4 := 16 * v3 + x[3];
    var v5 := 16 * v4 + x[4];
    var v6 := 16 * v5 + x[5];
    var v7 := 16 * v6 + x[6];
    HexNone(0);
    NextDigit(0, x[0], 1);
    NextDigit(v1, x[1], 2);
    NextDigit(v2, x[2], 3);
    NextDigit(v3, x[3], 4);
    NextDigit(v4, x[4], 5);
    NextDigit(v5, x[5], 6);
    NextDigit(v6, x[6], 7);
    NextDigit(v7, x[7], 8);
  }

  lemma NextDigit(q: nat, d: nat, n: nat)
    requires d < 16 && 0 < n
    ensures Hex(16 * q + d, n) == Hex(q, n - 1) + [HexChar(d)]
  {
    hide Hex, HexChar;
    assert (16 * q + d) / 16 == q && (16 * q + d) % 16 == d;
    HexStep(16 * q + d, n);
  }

  lemma {:induction false} ByteText(data: seq<u8>, i: nat)
    requires i < |data|
    ensures HexBytes(data)[2 * i] == HexChar(data[i] / 16) && HexBytes(data)[2 * i + 1] == HexChar(data[i] % 16)
    decreases |data|
  {
    hide HexChar;
    if i < |data| - 1 {
      ByteText(data[..|data| - 1], i);
    }
  }

  // ---- resynchronisation --------------------------------------------------------------------

  predicate NoColon(s: string) { forall k :: 0 <= k < |s| ==> s[k] != ':' }

  lemma {:induction false} IdleIgnores(p: Parser, s: string)
    requires Room(p) && p.stage == Idle && NoColon(s)
    ensures Feed(p, s) == Parsed(p, [])
    decreases |s|
  {
    if s != "" {
      IdleIgnores(p, s[..|s| - 1]);
    }
  }

  lemma {:induction false} HexNoColon(v: nat, n: nat)
    ensures NoColon(Hex(v, n))
    decreases n
  {
    hide HexChar;
    if n != 0 {
      HexNoColon(v / 16, n - 1);
      HexBack(v % 16);
    }
  }

  lemma {:induction false} BytesNoColon(data: seq<u8>)
    ensures NoColon(HexBytes(data))
    decreases |data|
  {
    hide HexChar;
    if data != [] {
      BytesNoColon(data[..|data| - 1]);
      HexBack(data[|data| - 1] / 16);
      HexBack(data[|data| - 1] % 16);
    }
  }

  lemma OneColon(f: Frame)
    ensures Encoded(f)[0] == ':' && NoColon(Encoded(f)[1..])
  {
    hide Hex, HexBytes;
    HexNoColon(f.id, 8);
    BytesNoColon(f.data);
    var tail := "X" + Hex(f.id, 8) + "N" + HexBytes(f.data) + ";\n";
    assert Encoded(f) == [':'] + tail;
    assert Encoded(f)[1..] == tail;
    assert NoColon("X") && NoColon("N") && NoColon(";\n");
    NoColonBoth("X", Hex(f.id, 8));
    NoColonBoth("X" + Hex(f.id, 8), "N");
    NoColonBoth("X" + Hex(f.id, 8) + "N", HexBytes(f.data));
    NoColonBoth("X" + Hex(f.id, 8) + "N" + HexBytes(f.data), ";\n");
  }

  lemma NoColonBoth(s: string, t: string)
    requires NoColon(s) && NoColon(t)
    ensures NoColon(s + t)
  {
  }

  /** Whatever state the parser is in, the text of one frame leaves it idle; the frame comes out if it was idle
      before, and otherwise nothing does. */
  lemma AnyStateRecovers(p: Parser, f: Frame)
    requires Room(p) && Valid(f)
    ensures var r := Feed(p, Encoded(f)); r.p.stage == Idle && r.out == if p.stage == Idle then [f] else []
  {
    if p.stage == Idle {
      FromIdle(p, f);
    } else {
      hide Feed, Encoded;
      OneColon(f);
      var s := Encoded(f);
      ColonEnds(p);
      FeedBoth(p, [':'], s[1..]);
      assert [':'] + s[1..] == s;
      IdleIgnores(Step(p, ':').p, s[1..]);
    }
  }

  lemma ColonEnds(p: Parser)
    requires Room(p) && p.stage != Idle
    ensures Feed(p, [':']) == Step(p, ':') && Step(p, ':').p.stage == Idle && Step(p, ':').out == []
  {
    FeedNone(p);
    FeedOne(p, "", ':');
    assert "" + [':'] == [':'];
  }

  function AllEncoded(frames: seq<Frame>): string {
    if frames == [] then "" else AllEncoded(frames[..|frames| - 1]) + Encoded(frames[|frames| - 1])
  }

  /** Printing any list of frames and parsing the text gives exactly that list. */
  lemma {:induction false} RoundTrip(p: Parser, frames: seq<Frame>)
    requires Room(p) && p.stage == Idle && forall k :: 0 <= k < |frames| ==> Valid(frames[k])
    ensures Feed(p, AllEncoded(frames)).p.stage == Idle && Feed(p, AllEncoded(frames)).out == frames
    decreases |frames|
  {
    hide Feed, Encoded;
    if frames == [] {
      FeedNone(p);
    } else {
      var front, f := frames[..|frames| - 1], frames[|frames| - 1];
      RoundTrip(p, front);
      FeedBoth(p, AllEncoded(front), Encoded(f));
      FromIdle(Feed(p, AllEncoded(front)).p, f);
      assert front + [f] == frames;
    }
  }

  /** After any garbage at all, at most the first frame is lost: all that follow come out, and nothing else. */
  lemma AfterGarbage(p: Parser, garbage: string, first: Frame, frames: seq<Frame>)
    requires Room(p) && Valid(first) && forall k :: 0 <= k < |frames| ==> Valid(frames[k])
    ensures var g := Feed(p, garbage);
      Feed(p, garbage + Encoded(first) + AllEncoded(frames)).out
        == g.out + (if g.p.stage == Idle then [first] else []) + frames
  {
    hide Feed, Encoded, AllEncoded;
    var g := Feed(p, garbage);
    FeedBoth(p, garbage, Encoded(first));
    AnyStateRecovers(g.p, first);
    FeedBoth(p, garbage + Encoded(first), AllEncoded(frames));
    RoundTrip(Feed(g.p, Encoded(first)).p, frames);
  }

  // ---- the parser -----------------------------------------------------------------------------

  class LineParser {
    var stage: Stage
    var id: u32
    const data: array<u8>
    var dlc: nat
    var nibble: nat

    ghost predicate Valid()
      reads this, data
    {
      && data.Length == MAX_DATA && dlc <= MAX_DATA && nibble == 2 * dlc + nibble % 2
      && (nibble % 2 == 1 ==> dlc < MAX_DATA && data[dlc] % 16 == 0)
    }

    ghost function View(): (p: Parser)
      reads this, data
      requires Valid()
      ensures Room(p)
    {
      Parser(stage, id, data[..dlc], if nibble % 2 == 1 then Some(data[dlc] / 16) else None)
    }

    constructor ()
      ensures Valid() && fresh(data) && View() == Parser(Idle, 0, [], None)
    {
      data := new u8[MAX_DATA](_ => 0);
      stage, id, dlc, nibble := Idle, 0, 0, 0;
    }

    method ParseByte(c: char) returns (frame: Option<Frame>)
      requires Valid()
      modifies this, data
      ensures Valid() && View() == Step(old(View()), c).p
      ensures Step(old(View()), c).out == if frame.Some? then [frame.value] else []
    {
      hide HexVal, Wrap;
      frame := None;
      match stage {
        case Idle =>
          if c == ':' {
            id, dlc, nibble, stage := 0, 0, 0, Kind;
          }
        case Kind =>
          stage := if c == 'X' || c == 'x' then Id else Idle;
        case Id =>
          if c == 'N' || c == 'n' {
            stage := Data;
          } else {
            var v := HexVal(c);
            if v >= 0 {
              id := Wrap(16 * (id as int) + v);
            } else {
              stage := Idle;
            }
          }
        case Data =>
          if c == ';' {
            frame := Some(Frame(id % 0x2000_0000, data[..dlc]));
            stage := Idle;
          } else {
            var v := HexVal(c);
            if v >= 0 && dlc < MAX_DATA {
              PutNibble(v);
            } else if v < 0 {
              stage := Idle;
            }
          }
      }
    }

    method PutNibble(v: nat)
      requires Valid() && v < 16 && dlc < MAX_DATA
      modifies this`dlc, this`nibble, data
      ensures Valid()
      ensures var p := old(View());
        View() == if p.half.None? then p.(half := Some(v))
                  else p.(data := p.data + [16 * (p.half.value as int) + v], half := None)
    {
      if nibble % 2 == 0 {
        data[dlc] := v * 16;
      } else {
        data[dlc] := data[dlc] + v;
        dlc := dlc + 1;
      }
      nibble := nibble + 1;
    }
  }
}
