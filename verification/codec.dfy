/** Text forms: base64 of section 4 of RFC 4648, consistency proofs with one hash a line, and
    tiles with a header of two decimal numbers.  Printing and then parsing gives back every
    non-empty proof, and every tile up to nodes unset at its end. */
module Codec {
  import opened Merkle
  import opened CompactRange
  import opened TileStore
  import opened Integrate
  import opened Layout
  import Client

  // ----- base64 -----

  type Sextet = x: nat | x < 64

  datatype Symbol = Bits(x: Sextet) | Pad

  /** Three bytes are four symbols; one or two bytes at the end are padded. */
  function Pack(b: Bytes): (r: seq<Symbol>)
    ensures r == [] <==> b == []
  {
    if b == [] then []
    else
      var x := b[0] as nat;
      if |b| == 1 then [Bits(x / 4), Bits(x % 4 * 16), Pad, Pad]
      else
        var y := b[1] as nat;
        if |b| == 2 then [Bits(x / 4), Bits(x % 4 * 16 + y / 16), Bits(y % 16 * 4), Pad]
        else
          var z := b[2] as nat;
          [Bits(x / 4), Bits(x % 4 * 16 + y / 16), Bits(y % 16 * 4 + z / 64), Bits(z % 64)] + Pack(b[3..])
  }

  /** Padding may only end the text; the bits it leaves over are not looked at. */
  function Unpack(s: seq<Symbol>): Option<Bytes> {
    if s == [] then Some([])
    else if |s| < 4 || s[0].Pad? || s[1].Pad? then None
    else
      var first := (s[0].x * 4 + s[1].x / 16) as byte;
      if s[2].Pad? then if s[3].Pad? && |s| == 4 then Some([first]) else None
      else
        var second := (s[1].x % 16 * 16 + s[2].x / 4) as byte;
        if s[3].Pad? then if |s| == 4 then Some([first, second]) else None
        else
          var third := (s[2].x % 4 * 64 + s[3].x) as byte;
          var rest := Unpack(s[4..]);
          if rest.None? then None else Some([first, second, third] + rest.value)
  }

  lemma Repack(x: nat, y: nat, z: nat)
    requires x < 256 && y < 256 && z < 256
    ensures x / 4 * 4 + (x % 4 * 16 + y / 16) / 16 == x
    ensures (x % 4 * 16 + y / 16) % 16 * 16 + (y % 16 * 4 + z / 64) / 4 == y
    ensures (y % 16 * 4 + z / 64) % 4 * 64 + z % 64 == z
  {
    assert (x % 4 * 16 + y / 16) / 16 == x % 4 && (x % 4 * 16 + y / 16) % 16 == y / 16;
    assert (y % 16 * 4 + z / 64) / 4 == y % 16 && (y % 16 * 4 + z / 64) % 4 == z / 64;
  }

  lemma {:induction false} UnpackPack(b: Bytes)
    ensures Unpack(Pack(b)) == Some(b)
    decreases |b|
  {
    if |b| > 2 {
      UnpackPack(b[3..]);
      Repack(b[0] as nat, b[1] as nat, b[2] as nat);
      assert Pack(b)[4..] == Pack(b[3..]);
      assert b == [b[0], b[1], b[2]] + b[3..];
    } else if |b| == 2 {
      assert b == [b[0], b[1]];
      UnpackTwo(b[0], b[1]);
    } else if |b| == 1 {
      assert b == [b[0]];
      UnpackOne(b[0]);
    }
  }

  lemma UnpackTwo(x: byte, y: byte)
    ensures Unpack(Pack([x, y])) == Some([x, y])
  {
    Repack(x as nat, y as nat, 0);
  }

  lemma UnpackOne(x: byte)
    ensures Unpack(Pack([x])) == Some([x])
  {
    Repack(x as nat, 0, 0);
  }

  function Print(s: Symbol): char {
    if s.Pad? then '='
    else if s.x < 26 then 'A' + s.x as char
    else if s.x < 52 then 'a' + (s.x - 26) as char
    else if s.x < 62 then '0' + (s.x - 52) as char
    else if s.x == 62 then '+' else '/'
  }

  function Read(c: char): Option<Symbol> {
    if 'A' <= c <= 'Z' then Some(Bits((c - 'A') as int))
    else if 'a' <= c <= 'z' then Some(Bits((c - 'a') as int + 26))
    else if '0' <= c <= '9' then Some(Bits((c - '0') as int + 52))
    else if c == '+' then Some(Bits(62))
    else if c == '/' then Some(Bits(63))
    else if c == '=' then Some(Pad)
    else None
  }

  lemma ReadPrint(s: Symbol)
    ensures Read(Print(s)) == Some(s) && Print(s) != '\n' && Print(s) != '\r'
  {
  }

  function PrintAll(s: seq<Symbol>): string {
    if s == [] then [] else [Print(s[0])] + PrintAll(s[1..])
  }

  /** Line breaks are skipped, wherever they are. */
  function ReadAll(s: string): Option<seq<Symbol>> {
    if s == [] then Some([])
    else if s[0] == '\n' || s[0] == '\r' then ReadAll(s[1..])
    else
      var rest := ReadAll(s[1..]);
      if Read(s[0]).None? || rest.None? then None else Some([Read(s[0]).value] + rest.value)
  }

  lemma {:induction false} ReadPrintAll(s: seq<Symbol>)
    ensures ReadAll(PrintAll(s)) == Some(s)
    ensures forall c :: c in PrintAll(s) ==> Read(c).Some?
    ensures PrintAll(s) == [] <==> s == []
    decreases |s|
  {
    if s != [] {
      ReadPrint(s[0]);
      ReadPrintAll(s[1..]);
      assert PrintAll(s)[1..] == PrintAll(s[1..]);
      assert s == [s[0]] + s[1..];
    }
  }

  function Encode(b: Bytes): string { PrintAll(Pack(b)) }

  function Decode(s: string): Option<Bytes> {
    var symbols := ReadAll(s);
    if symbols.None? then None else Unpack(symbols.value)
  }

  lemma EncodePrints(b: Bytes)
    ensures forall c :: c in Encode(b) ==> Read(c).Some?
    ensures Encode(b) == [] <==> b == []
  {
    ReadPrintAll(Pack(b));
  }

  lemma Base64RoundTrip(b: Bytes)
    ensures Decode(Encode(b)) == Some(b)
  {
    ReadPrintAll(Pack(b));
    UnpackPack(b);
  }

  // ----- decimal numbers -----

  function Decimal(n: nat): string {
    if n < 10 then [Digit(n)] else Decimal(n / 10) + [Digit(n % 10)]
  }

  function Digit(d: nat): char
    requires d < 10
  {
    '0' + d as char
  }

  /** The number that the digits denote. */
  function Digits(s: string): Option<nat>
    decreases |s|
  {
    if s == [] then Some(0)
    else
      var c := s[|s| - 1];
      var high := Digits(s[..|s| - 1]);
      if high.None? || !('0' <= c <= '9') then None else Some(high.value * 10 + (c - '0') as nat)
  }

  /** Parse an unsigned number of 16 bits. */
  function ParseUint16(s: string): Option<nat> {
    var n := Digits(s);
    if s == [] || n.None? || n.value >= 65536 then None else n
  }

  lemma {:induction false} DecimalRoundTrip(n: nat)
    ensures Decimal(n) != [] && Digits(Decimal(n)) == Some(n)
    ensures forall c :: c in Decimal(n) ==> '0' <= c <= '9'
    decreases n
  {
    var s := Decimal(n);
    if n >= 10 { DecimalRoundTrip(n / 10); }
    assert s[..|s| - 1] == if n < 10 then [] else Decimal(n / 10);
  }

  // ----- lines -----

  function Split(s: string): (r: seq<string>)
    ensures |r| > 0
  {
    if s == [] then [[]]
    else
      var r := Split(s[1..]);
      if s[0] == '\n' then [[]] + r else [[s[0]] + r[0]] + r[1..]
  }

  function Join(lines: seq<string>): string {
    if lines == [] then [] else lines[0] + "\n" + Join(lines[1..])
  }

  predicate OneLine(s: string) { '\n' !in s }

  lemma {:induction false} SplitFirst(line: string, rest: string)
    requires OneLine(line)
    ensures Split(line + "\n" + rest) == [line] + Split(rest)
    decreases |line|
  {
    var s := line + "\n" + rest;
    if line == [] {
      assert s[1..] == rest;
    } else {
      assert s[1..] == line[1..] + "\n" + rest;
      SplitFirst(line[1..], rest);
      assert [s[0]] + line[1..] == line;
    }
  }

  lemma {:induction false} SplitOne(line: string)
    requires OneLine(line)
    ensures Split(line) == [line]
    decreases |line|
  {
    if line != [] {
      SplitOne(line[1..]);
      assert [line[0]] + line[1..] == line;
    }
  }

  /** Splitting undoes joining. */
  lemma {:induction false} SplitJoin(lines: seq<string>, last: string)
    requires OneLine(last) && forall l :: l in lines ==> OneLine(l)
    ensures Split(Join(lines) + last) == lines + [last]
    decreases |lines|
  {
    if lines == [] {
      assert Join(lines) + last == last;
      SplitOne(last);
    } else {
      var rest := Join(lines[1..]) + last;
      assert Join(lines) + last == lines[0] + "\n" + rest;
      SplitFirst(lines[0], rest);
      SplitJoin(lines[1..], last);
    }
  }

  lemma {:induction false} JoinLast(lines: seq<string>, last: string)
    ensures Join(lines + [last]) == Join(lines) + last + "\n"
    decreases |lines|
  {
    if lines != [] {
      assert (lines + [last])[1..] == lines[1..] + [last];
      JoinLast(lines[1..], last);
    } else {
      assert [last][1..] == [];
    }
  }

  function EncodeLines(hashes: seq<Bytes>): (r: seq<string>)
    ensures |r| == |hashes| && forall i :: 0 <= i < |r| ==> r[i] == Encode(hashes[i])
  {
    seq(|hashes|, i requires 0 <= i < |hashes| => Encode(hashes[i]))
  }

  /** Decode all lines, or fail with the first that does not decode. */
  function DecodeLines(lines: seq<string>): (r: Option<seq<Bytes>>)
    ensures r.Some? ==> |r.value| == |lines|
  {
    if lines == [] then Some([])
    else
      var init, last := DecodeLines(lines[..|lines| - 1]), Decode(lines[|lines| - 1]);
      if init.None? || last.None? then None else Some(init.value + [last.value])
  }

  lemma EncodeLast(init: seq<Bytes>, last: Bytes)
    ensures EncodeLines(init + [last]) == EncodeLines(init) + [Encode(last)]
    ensures EncodeLines(init + [last])[..|init|] == EncodeLines(init)
  {
  }

  lemma {:induction false} LinesRoundTrip(hashes: seq<Bytes>)
    ensures DecodeLines(EncodeLines(hashes)) == Some(hashes)
    decreases |hashes|
  {
    if hashes != [] {
      var init, last := hashes[..|hashes| - 1], hashes[|hashes| - 1];
      LinesRoundTrip(init);
      Base64RoundTrip(last);
      assert hashes == init + [last];
      EncodeLast(init, last);
    }
  }

  lemma EncodedLines(hashes: seq<Bytes>)
    ensures forall l :: l in EncodeLines(hashes) ==> OneLine(l)
  {
    forall i | 0 <= i < |hashes| ensures OneLine(EncodeLines(hashes)[i]) {
      EncodePrints(hashes[i]);
    }
  }

  method DecodeAll(lines: seq<string>) returns (r: Option<seq<Bytes>>)
    ensures r == DecodeLines(lines)
  {
    var out: seq<Bytes> := [];
    for i := 0 to |lines|
      invariant DecodeLines(lines[..i]) == Some(out)
    {
      assert lines[..i + 1][..i] == lines[..i];
      var b := Decode(lines[i]);
      if b.None? {
        FailsFor(lines, i);
        return None;
      }
      out := out + [b.value];
    }
    assert lines[..|lines|] == lines;
    return Some(out);
  }

  lemma {:induction false} FailsFor(lines: seq<string>, i: nat)
    requires i < |lines| && Decode(lines[i]).None?
    ensures DecodeLines(lines).None?
    decreases |lines|
  {
    if i < |lines| - 1 { FailsFor(lines[..|lines| - 1], i); }
  }

  // ----- proofs -----

  method MarshalProof(p: seq<Bytes>) returns (s: string)
    ensures s == Join(EncodeLines(p))
  {
    s := "";
    for i := 0 to |p|
      invariant s == Join(EncodeLines(p[..i]))
    {
      assert p[..i + 1] == p[..i] + [p[i]];
      EncodeLast(p[..i], p[i]);
      JoinLast(EncodeLines(p[..i]), Encode(p[i]));
      s := s + Encode(p[i]) + "\n";
    }
    assert p[..|p|] == p;
  }

  function ParseProof(data: string): Option<seq<Bytes>> {
    if data == [] || data[|data| - 1] != '\n' then None
    else DecodeLines(Split(data)[..|Split(data)| - 1])
  }

  method UnmarshalProof(data: string) returns (r: Option<seq<Bytes>>)
    ensures r == ParseProof(data)
  {
    if data == [] || data[|data| - 1] != '\n' { return None; }
    var lines := Split(data);
    r := DecodeAll(lines[..|lines| - 1]);
  }

  /** Exactly the non-empty proofs survive. */
  lemma ProofRoundTrip(p: seq<Bytes>)
    ensures ParseProof(Join(EncodeLines(p))) == if p == [] then None else Some(p)
  {
    var lines := EncodeLines(p);
    var s := Join(lines);
    LinesRoundTrip(p);
    EncodedLines(p);
    if p != [] {
      var init, last := lines[..|lines| - 1], lines[|lines| - 1];
      assert lines == init + [last];
      JoinLast(init, last);
      SplitJoin(lines, "");
      assert s + "" == s;
      assert (lines + [""])[..|lines|] == lines;
    }
  }

  // ----- tiles -----

  datatype TextTile = TextTile(numLeaves: nat, nodes: seq<Bytes>)

  /** Parsing can also crash: the second line is read without asking whether there is one. */
  datatype Outcome = Parsed(tile: TextTile) | Invalid | Crashed

  const HASH_SIZE := "32"

  function TileLines(t: TextTile): seq<string> { [HASH_SIZE, Decimal(t.numLeaves)] + EncodeLines(t.nodes) }

  method MarshalTile(t: TextTile) returns (s: string)
    ensures s == Join(TileLines(t))
  {
    s := HASH_SIZE + "\n" + Decimal(t.numLeaves) + "\n";
    JoinTwo(HASH_SIZE, Decimal(t.numLeaves));
    for i := 0 to |t.nodes|
      invariant s == Join(TileLines(t.(nodes := t.nodes[..i])))
    {
      assert t.nodes[..i + 1] == t.nodes[..i] + [t.nodes[i]];
      EncodeLast(t.nodes[..i], t.nodes[i]);
      TileLinesLast(t.(nodes := t.nodes[..i]), t.nodes[i]);
      s := s + Encode(t.nodes[i]) + "\n";
    }
    assert t.nodes[..|t.nodes|] == t.nodes;
  }

  lemma JoinTwo(a: string, b: string)
    ensures Join([a, b] + EncodeLines([])) == a + "\n" + b + "\n"
  {
    assert [a, b] + EncodeLines([]) == [a] + [b];
    JoinLast([a], b);
    JoinLast([], a);
    assert [] + [a] == [a];
  }

  lemma TileLinesLast(t: TextTile, node: Bytes)
    ensures TileLines(t.(nodes := t.nodes + [node])) == TileLines(t) + [Encode(node)]
    ensures Join(TileLines(t.(nodes := t.nodes + [node]))) == Join(TileLines(t)) + Encode(node) + "\n"
  {
    EncodeLast(t.nodes, node);
    assert TileLines(t.(nodes := t.nodes + [node])) == TileLines(t) + [Encode(node)];
    JoinLast(TileLines(t), Encode(node));
  }

  predicate IsSpace(c: char) {
    '\t' <= c <= '\r' || c == ' ' || c == '\U{85}' || c == '\U{a0}' || c == '\U{1680}' || '\U{2000}' <= c <= '\U{200a}'
    || c == '\U{2028}' || c == '\U{2029}' || c == '\U{202f}' || c == '\U{205f}' || c == '\U{3000}'
  }

  function TrimLeft(s: string): string {
    if s != [] && IsSpace(s[0]) then TrimLeft(s[1..]) else s
  }

  function TrimRight(s: string): string {
    if s != [] && IsSpace(s[|s| - 1]) then TrimRight(s[..|s| - 1]) else s
  }

  function TrimSpace(s: string): string { TrimRight(TrimLeft(s)) }

  function ParseTile(raw: string): Outcome {
    var lines := Split(TrimSpace(raw));
    if ParseUint16(lines[0]) != Some(32) then Invalid
    else if |lines| < 2 then Crashed
    else
      var numLeaves, nodes := ParseUint16(lines[1]), DecodeLines(lines[2..]);
      if numLeaves.None? || nodes.None? then Invalid else Parsed(TextTile(numLeaves.value, nodes.value))
  }

  method UnmarshalTile(raw: string) returns (r: Outcome)
    ensures r == ParseTile(raw)
  {
    var lines := Split(TrimSpace(raw));
    var hs := ParseUint16(lines[0]);
    if hs != Some(32) { return Invalid; }
    if |lines| < 2 { return Crashed; }
    var numLeaves := ParseUint16(lines[1]);
    if numLeaves.None? { return Invalid; }
    var nodes := DecodeAll(lines[2..]);
    return if nodes.None? then Invalid else Parsed(TextTile(numLeaves.value, nodes.value));
  }

  /** The nodes without the unset ones at the end. */
  function DropUnset(nodes: seq<Bytes>): (r: seq<Bytes>)
    ensures |r| <= |nodes|
    ensures r == nodes <==> nodes == [] || nodes[|nodes| - 1] != []
  {
    if nodes != [] && nodes[|nodes| - 1] == [] then DropUnset(nodes[..|nodes| - 1]) else nodes
  }

  predicate Solid(s: string) { s != [] && !IsSpace(s[|s| - 1]) }

  /** Trimming lines of which the last is solid removes the final line break. */
  lemma TrimLine(lines: seq<string>, last: string)
    requires Solid(last)
    ensures TrimRight(Join(lines + [last])) == Join(lines) + last
  {
    JoinLast(lines, last);
    var s := Join(lines) + last;
    assert Join(lines + [last])[..|s|] == s && s[|s| - 1] == last[|last| - 1];
    assert TrimRight(s) == s;
  }

  lemma EncodeSolid(b: Bytes)
    requires b != []
    ensures Solid(Encode(b)) && OneLine(Encode(b))
  {
    EncodePrints(b);
    var c := Encode(b)[|Encode(b)| - 1];
    assert Read(c).Some?;
  }

  lemma DecimalSolid(n: nat)
    ensures Solid(Decimal(n)) && OneLine(Decimal(n))
  {
    DecimalRoundTrip(n);
  }

  /** Trimming the text of a tile drops the lines of nodes unset at the end. */
  lemma {:induction false} TrimTile(t: TextTile)
    ensures var lines := TileLines(t.(nodes := DropUnset(t.nodes)));
            TrimRight(Join(TileLines(t))) == Join(lines[..|lines| - 1]) + lines[|lines| - 1]
            && Solid(lines[|lines| - 1])
    decreases |t.nodes|
  {
    if t.nodes == [] {
      DecimalSolid(t.numLeaves);
      assert TileLines(t) == [HASH_SIZE] + [Decimal(t.numLeaves)];
      TrimLine([HASH_SIZE], Decimal(t.numLeaves));
      assert TileLines(t)[..1] == [HASH_SIZE];
    } else {
      var init, last := t.(nodes := t.nodes[..|t.nodes| - 1]), t.nodes[|t.nodes| - 1];
      assert t.nodes == init.nodes + [last];
      TileLinesLast(init, last);
      if last == [] {
        assert Encode(last) == [];
        TrimBreak(Join(TileLines(init)));
        TrimTile(init);
      } else {
        EncodeSolid(last);
        TrimLine(TileLines(init), Encode(last));
        assert (TileLines(init) + [Encode(last)])[..|TileLines(init)|] == TileLines(init);
      }
    }
  }

  lemma TrimBreak(s: string)
    ensures TrimRight(s + [] + "\n") == TrimRight(s)
  {
    assert (s + [] + "\n")[..|s|] == s;
  }

  lemma TileStartsSolid(t: TextTile)
    ensures TrimLeft(Join(TileLines(t))) == Join(TileLines(t))
  {
    var lines := TileLines(t);
    assert Join(lines) == lines[0] + "\n" + Join(lines[1..]);
    assert Join(lines)[0] == '3';
  }

  lemma TileLinesAreLines(t: TextTile)
    ensures forall l :: l in TileLines(t) ==> OneLine(l)
  {
    EncodedLines(t.nodes);
    DecimalSolid(t.numLeaves);
  }

  lemma SplitTile(t: TextTile)
    ensures Split(TrimSpace(Join(TileLines(t)))) == TileLines(t.(nodes := DropUnset(t.nodes)))
  {
    TileStartsSolid(t);
    TrimTile(t);
    var kept := t.(nodes := DropUnset(t.nodes));
    TileLinesAreLines(kept);
    SplitUnended(TileLines(kept));
  }

  lemma SplitUnended(lines: seq<string>)
    requires lines != [] && forall l :: l in lines ==> OneLine(l)
    ensures Split(Join(lines[..|lines| - 1]) + lines[|lines| - 1]) == lines
  {
    var init, last := lines[..|lines| - 1], lines[|lines| - 1];
    assert lines == init + [last];
    SplitJoin(init, last);
  }

  /** What a printed tile parses as: itself, but for nodes unset at its end, unless the number
      of leaves needs more than 16 bits. */
  lemma TileRoundTrip(t: TextTile)
    ensures ParseTile(Join(TileLines(t)))
         == if t.numLeaves < 65536 then Parsed(t.(nodes := DropUnset(t.nodes))) else Invalid
  {
    var nodes := DropUnset(t.nodes);
    SplitTile(t);
    DecimalRoundTrip(t.numLeaves);
    HashSizeParses();
    LinesRoundTrip(nodes);
    assert TileLines(t.(nodes := nodes))[2..] == EncodeLines(nodes);
  }

  lemma HashSizeParses()
    ensures ParseUint16(HASH_SIZE) == Some(32)
  {
    assert Decimal(32) == HASH_SIZE;
    DecimalRoundTrip(32);
  }

  // ----- the tiles that integration builds -----

  /** The text form of a tile, digests being given by their bytes; unset nodes are empty. */
  function TextOf(t: Tile, hash: Digest -> Bytes): TextTile {
    TextTile(t.numLeaves, seq(|t.nodes|, i requires 0 <= i < |t.nodes| =>
      if t.nodes[i].Some? then hash(t.nodes[i].value) else []))
  }

  /** Only the nil digest, which is what an unset node is read back as, has no bytes. */
  ghost predicate BytesOfDigests(hash: Digest -> Bytes) {
    forall d :: hash(d) == [] <==> d == NIL_DIGEST
  }

  /** Printing the tile and parsing the text gives the tile as the store models reading it:
      the same leaf count and nodes, unset ones as empty hashes. */
  lemma BuiltTileReadsBack(t: Tile, hash: Digest -> Bytes)
    requires Built(t) && BytesOfDigests(hash)
    ensures ParseTile(Join(TileLines(TextOf(t, hash)))) == Parsed(TextOf(Persisted(t), hash))
  {
    PersistedText(t, hash);
    TileRoundTrip(TextOf(t, hash));
  }

  lemma PersistedText(t: Tile, hash: Digest -> Bytes)
    requires Built(t) && BytesOfDigests(hash)
    ensures TextOf(Persisted(t), hash) == TextOf(t, hash) && DropUnset(TextOf(t, hash).nodes) == TextOf(t, hash).nodes
  {
    assert hash(NIL_DIGEST) == [];
    assert TextOf(Persisted(t), hash).nodes == TextOf(t, hash).nodes;
  }

  /** Every tile that an integration makes dirty, grown from fetched partial tiles or new, is
      read back as the store says. */
  lemma DirtyTilesReadBack(getTile: Client.GetTileFunc, visits: seq<Visit>, hash: Digest -> Bytes, k: TileKey)
    requires forall k :: getTile(k).Some? ==> Built(getTile(k).value)
    requires forall v :: v in visits ==> v.digest != NIL_DIGEST
    requires BytesOfDigests(hash) && k in VisitAll(map[], getTile, visits)
    ensures var t := VisitAll(map[], getTile, visits)[k];
            Built(t) && ParseTile(Join(TileLines(TextOf(t, hash)))) == Parsed(TextOf(Persisted(t), hash))
  {
    VisitsBuild(map[], getTile, visits);
    BuiltTileReadsBack(VisitAll(map[], getTile, visits)[k], hash);
  }

  // ----- the crash -----

  /** Parsing crashes exactly on a single line that reads as the hash size. */
  lemma WhenParsingCrashes(raw: string)
    ensures ParseTile(raw) == Crashed <==> OneLine(TrimSpace(raw)) && ParseUint16(TrimSpace(raw)) == Some(32)
  {
    var s := TrimSpace(raw);
    if OneLine(s) { SplitOne(s); } else { SplitMore(s); }
  }

  lemma {:induction false} SplitMore(s: string)
    requires !OneLine(s)
    ensures |Split(s)| >= 2
    decreases |s|
  {
    if s[0] != '\n' { SplitMore(s[1..]); }
  }

  lemma HashSizeAloneCrashes()
    ensures ParseTile("32") == Crashed
  {
    HashSizeParses();
    WhenParsingCrashes("32");
  }
}
