/** Octet strings as pkg/protocol/mysql.go handles them: trimming and splitting of result texts. */
module Text {
  import opened Common

  type Octets = seq<byte>

  const NEWLINE: byte := 10

  /** The UTF-8 encodings of Unicode white space. */
  predicate IsSpace(r: Octets) {
    match |r|
    case 1 => 9 <= r[0] <= 13 || r[0] == 32
    case 2 => r[0] == 0xc2 && (r[1] == 0x85 || r[1] == 0xa0)
    case 3 => IsWideSpace(r[0], r[1], r[2])
    case _ => false
  }

  predicate IsWideSpace(a: byte, b: byte, c: byte) {
    || (a == 0xe1 && b == 0x9a && c == 0x80)
    || (a == 0xe2 && b == 0x80 && (0x80 <= c <= 0x8a || c == 0xa8 || c == 0xa9 || c == 0xaf))
    || (a == 0xe2 && b == 0x81 && c == 0x9f)
    || (a == 0xe3 && b == 0x80 && c == 0x80)
  }

  /** UTF-8 for the code points below 0x10000, RFC 3629 section 3. */
  function Utf8(r: nat): Octets
    requires r < 0x1_0000
  {
    if r < 0x80 then [r]
    else if r < 0x800 then [0xc0 + r / 64, 0x80 + r % 64]
    else [0xe0 + r / 4096, 0x80 + r / 64 % 64, 0x80 + r % 64]
  }

  /** The code points with the Unicode property White_Space. */
  predicate IsWhite(r: nat) {
    || 9 <= r <= 13 || r == 0x20 || r == 0x85 || r == 0xa0 || r == 0x1680 || 0x2000 <= r <= 0x200a
    || r == 0x2028 || r == 0x2029 || r == 0x202f || r == 0x205f || r == 0x3000
  }

  /** The code point that a white space encoding stands for. */
  function RuneOf(b: Octets): nat {
    match |b|
    case 1 => b[0]
    case 2 => (b[0] as int % 32) * 64 + b[1] as int % 64
    case 3 => (b[0] as int % 16) * 4096 + (b[1] as int % 64) * 64 + b[2] as int % 64
    case _ => 0
  }

  lemma WideSpaceIsWhite(a: byte, b: byte, c: byte)
    requires IsWideSpace(a, b, c)
    ensures var r := (a as int % 16) * 4096 + (b as int % 64) * 64 + c as int % 64;
            0x800 <= r < 0x1_0000 && IsWhite(r) && Utf8(r) == [a, b, c]
  {}

  lemma SpaceIsWhite(b: Octets)
    requires IsSpace(b)
    ensures RuneOf(b) < 0x1_0000 && IsWhite(RuneOf(b)) && b == Utf8(RuneOf(b))
  {
    match |b|
    case 1 => assert b == [b[0]];
    case 2 => assert b == [b[0], b[1]];
    case _ =>
      WideSpaceIsWhite(b[0], b[1], b[2]);
      assert b == [b[0], b[1], b[2]];
  }

  lemma WhiteIsSpace(r: nat)
    requires r < 0x1_0000 && IsWhite(r)
    ensures IsSpace(Utf8(r))
  {}

  /** Trimming cuts exactly the white space code points. */
  lemma SpacesAreWhite(b: Octets)
    ensures IsSpace(b) <==> exists r: nat :: r < 0x1_0000 && IsWhite(r) && b == Utf8(r)
  {
    if IsSpace(b) { SpaceIsWhite(b); }
    forall r: nat | r < 0x1_0000 && IsWhite(r) && b == Utf8(r) ensures IsSpace(b) { WhiteIsSpace(r); }
  }

  /** The length of the space a text begins with, 0 if it begins with none. */
  function LeadingSpace(t: Octets): (n: nat)
    ensures n <= |t| && (n > 0 ==> IsSpace(t[..n]))
  {
    if |t| >= 1 && IsSpace(t[..1]) then 1
    else if |t| >= 2 && IsSpace(t[..2]) then 2
    else if |t| >= 3 && IsSpace(t[..3]) then 3
    else 0
  }

  function TrailingSpace(t: Octets): (n: nat)
    ensures n <= |t| && (n > 0 ==> IsSpace(t[|t| - n..]))
  {
    if |t| >= 1 && IsSpace(t[|t| - 1..]) then 1
    else if |t| >= 2 && IsSpace(t[|t| - 2..]) then 2
    else if |t| >= 3 && IsSpace(t[|t| - 3..]) then 3
    else 0
  }

  function TrimLeft(t: Octets): Octets { if LeadingSpace(t) == 0 then t else TrimLeft(t[LeadingSpace(t)..]) }

  function TrimRight(t: Octets): Octets {
    if TrailingSpace(t) == 0 then t else TrimRight(t[..|t| - TrailingSpace(t)])
  }

  /** strings.TrimSpace */
  function TrimSpace(t: Octets): Octets { TrimRight(TrimLeft(t)) }

  function Flat<T>(runes: seq<seq<T>>): seq<T> { if runes == [] then [] else runes[0] + Flat(runes[1..]) }

  lemma FlatCons<T>(r: seq<T>, runes: seq<seq<T>>)
    ensures Flat([r] + runes) == r + Flat(runes)
  {
    assert ([r] + runes)[1..] == runes;
  }

  lemma {:induction false} FlatSnoc<T>(runes: seq<seq<T>>, r: seq<T>)
    ensures Flat(runes + [r]) == Flat(runes) + r
  {
    if runes == [] {
      assert Flat([r]) == r by { FlatCons(r, []); assert [r] + [] == [r]; }
    } else {
      assert (runes + [r])[1..] == runes[1..] + [r];
      FlatSnoc(runes[1..], r);
    }
  }

  lemma CutInTwo<T>(t: seq<T>, n: nat)
    requires n <= |t|
    ensures t == t[..n] + t[n..]
  {}

  /** Every rune is a space. */
  ghost predicate AllSpaces(runes: seq<Octets>) { forall r :: r in runes ==> IsSpace(r) }

  lemma AllSpacesAppend(a: seq<Octets>, b: seq<Octets>)
    requires AllSpaces(a) && AllSpaces(b)
    ensures AllSpaces(a + b)
  {}

  lemma OneSpace(r: Octets)
    requires IsSpace(r)
    ensures AllSpaces([r])
  {}

  lemma {:induction false} TrimLeftCuts(t: Octets) returns (runes: seq<Octets>)
    ensures t == Flat(runes) + TrimLeft(t) && AllSpaces(runes)
  {
    var n := LeadingSpace(t);
    runes := [];
    if n > 0 {
      var more := TrimLeftCuts(t[n..]);
      CutInTwo(t, n);
      FlatCons(t[..n], more);
      OneSpace(t[..n]);
      AllSpacesAppend([t[..n]], more);
      runes := [t[..n]] + more;
    }
  }

  lemma {:induction false} TrimRightCuts(t: Octets) returns (runes: seq<Octets>)
    ensures t == TrimRight(t) + Flat(runes) && AllSpaces(runes)
  {
    var n := TrailingSpace(t);
    runes := [];
    if n > 0 {
      var more := TrimRightCuts(t[..|t| - n]);
      CutInTwo(t, |t| - n);
      FlatSnoc(more, t[|t| - n..]);
      OneSpace(t[|t| - n..]);
      AllSpacesAppend(more, [t[|t| - n..]]);
      runes := more + [t[|t| - n..]];
    }
  }

  lemma {:induction false} TrimmedLeft(t: Octets)
    ensures LeadingSpace(TrimLeft(t)) == 0
  {
    if LeadingSpace(t) > 0 { TrimmedLeft(t[LeadingSpace(t)..]); }
  }

  lemma {:induction false} TrimmedRight(t: Octets)
    ensures TrailingSpace(TrimRight(t)) == 0
  {
    if TrailingSpace(t) > 0 { TrimmedRight(t[..|t| - TrailingSpace(t)]); }
  }

  lemma NoSpaceInFront(t: Octets, rest: Octets)
    requires LeadingSpace(t + rest) == 0
    ensures LeadingSpace(t) == 0
  {
    forall n | 0 <= n <= |t| ensures (t + rest)[..n] == t[..n] {}
  }

  /** No white space, in whatever length, stands at either end. */
  ghost predicate NoSpaceAtEnds(t: Octets) {
    forall n :: 0 <= n <= |t| ==> !IsSpace(t[..n]) && !IsSpace(t[|t| - n..])
  }

  lemma SpaceLength(b: Octets)
    requires IsSpace(b)
    ensures |b| == 1 || |b| == 2 || |b| == 3
  {}

  lemma NoLeadingSpace(t: Octets, n: nat)
    requires LeadingSpace(t) == 0 && n <= |t|
    ensures !IsSpace(t[..n])
  {
    if IsSpace(t[..n]) { SpaceLength(t[..n]); }
  }

  lemma NoTrailingSpace(t: Octets, n: nat)
    requires TrailingSpace(t) == 0 && n <= |t|
    ensures !IsSpace(t[|t| - n..])
  {
    if IsSpace(t[|t| - n..]) { SpaceLength(t[|t| - n..]); }
  }

  lemma NoSpaceLeft(t: Octets)
    requires LeadingSpace(t) == 0 && TrailingSpace(t) == 0
    ensures NoSpaceAtEnds(t)
  {
    forall n | 0 <= n <= |t| ensures !IsSpace(t[..n]) && !IsSpace(t[|t| - n..]) {
      NoLeadingSpace(t, n);
      NoTrailingSpace(t, n);
    }
  }

  /** TrimSpace removes white space, and nothing else, from both ends and leaves none there. */
  lemma TrimSpaceIsTheCore(t: Octets) returns (left: seq<Octets>, right: seq<Octets>)
    ensures t == Flat(left) + TrimSpace(t) + Flat(right) && AllSpaces(left) && AllSpaces(right)
    ensures NoSpaceAtEnds(TrimSpace(t))
  {
    left := TrimLeftCuts(t);
    right := TrimRightCuts(TrimLeft(t));
    TrimmedLeft(t);
    TrimmedRight(TrimLeft(t));
    NoSpaceInFront(TrimSpace(t), Flat(right));
    NoSpaceLeft(TrimSpace(t));
  }

  /** strings.Split(t, "\n") */
  function Lines(t: Octets): (lines: seq<Octets>)
    ensures lines != []
  {
    if t == [] then [[]]
    else
      var rest := Lines(t[1..]);
      if t[0] == NEWLINE then [[]] + rest else [[t[0]] + rest[0]] + rest[1..]
  }

  function Joined(lines: seq<Octets>): Octets
    requires lines != []
  {
    if |lines| == 1 then lines[0] else lines[0] + [NEWLINE] + Joined(lines[1..])
  }

  lemma JoinedSnip(head: Octets, rest: seq<Octets>)
    requires rest != []
    ensures Joined([head + rest[0]] + rest[1..]) == head + Joined(rest)
  {
    if |rest| > 1 { assert ([head + rest[0]] + rest[1..])[1..] == rest[1..]; }
  }

  lemma {:induction false} LinesJoin(t: Octets)
    ensures Joined(Lines(t)) == t
  {
    if t == [] {
    } else {
      var rest := Lines(t[1..]);
      LinesJoin(t[1..]);
      if t[0] == NEWLINE {
        assert ([[]] + rest)[1..] == rest;
      } else {
        JoinedSnip([t[0]], rest);
      }
    }
  }

  predicate NewlineFree(lines: seq<Octets>) { forall i :: 0 <= i < |lines| ==> NEWLINE !in lines[i] }

  lemma {:induction false} LinesAreNewlineFree(t: Octets)
    ensures NewlineFree(Lines(t))
  {
    if t == [] {
    } else {
      LinesAreNewlineFree(t[1..]);
    }
  }

  /** Splitting undoes joining. */
  lemma {:induction false} LinesOfJoined(lines: seq<Octets>)
    requires lines != [] && NewlineFree(lines)
    ensures Lines(Joined(lines)) == lines
    decreases |lines|, |lines[0]|
  {
    var t := Joined(lines);
    if lines[0] != [] {
      var rest := [lines[0][1..]] + lines[1..];
      assert rest[1..] == lines[1..] && lines[0] == [lines[0][0]] + lines[0][1..];
      JoinedSnip([lines[0][0]], rest);
      assert [[lines[0][0]] + rest[0]] + rest[1..] == lines;
      LinesOfJoined(rest);
      assert t[1..] == Joined(rest);
    } else if |lines| > 1 {
      LinesOfJoined(lines[1..]);
      assert t[1..] == Joined(lines[1..]);
      assert lines == [[]] + lines[1..];
    }
  }

  /** The lines of a text are the one way to write it as newline-free pieces joined by newlines. */
  lemma SplitIsUnique(t: Octets, lines: seq<Octets>)
    requires lines != []
    ensures Joined(lines) == t && NewlineFree(lines) <==> lines == Lines(t)
  {
    LinesJoin(t);
    LinesAreNewlineFree(t);
    if Joined(lines) == t && NewlineFree(lines) { LinesOfJoined(lines); }
  }
}

/**
 Result sets on the wire, pkg/protocol/mysql.go, against the packet and length-encoded-string rules of
 the MySQL Client/Server Protocol ("MySQL Packets", "Protocol::LengthEncodedString", "EOF_Packet").
 */
module Mysql {
  import opened Common
  import opened Text
  import Fairness

  const TWO_TO_THE_24 := 0x100_0000

  // ---- writing ----

  /** Two length octets are all a long string gets: the rest of the length is cut off. */
  function LengthEncoded(s: Octets): Octets {
    if |s| < 251 then [|s|] + s else [0xfc, |s| % 256, |s| / 256 % 256] + s
  }

  function Header(length: nat, id: byte): Octets { [length % 256, length / 256 % 256, length / 0x1_0000 % 256, id] }

  function Frame(id: byte, data: Octets): Octets { Header(|data|, id) + data }

  /** Packets one after the other with ids counting up modulo 256. */
  function Wire(first: nat, packets: seq<Octets>): Octets
    decreases |packets|
  {
    if packets == [] then [] else Frame(first % 256, packets[0]) + Wire(first + 1, packets[1..])
  }

  const EOF_PACKET: Octets := [0xfe, 0x00, 0x00, 0x02, 0x00]

  const DEF: Octets := [0x64, 0x65, 0x66]
  const RESULT: Octets := [0x72, 0x65, 0x73, 0x75, 0x6c, 0x74]

  const COLUMN_TAIL: Octets := [0x0c, 0x21, 0x00, 0xff, 0xff, 0xff, 0xff, 0xfd, 0x00, 0x00, 0x00, 0x00, 0x00]

  function ColumnDefinition(name: Octets, table: Octets): Octets {
    LengthEncoded(DEF) + (LengthEncoded([]) + (LengthEncoded(table) + (LengthEncoded(table)
    + (LengthEncoded(name) + (LengthEncoded(name) + COLUMN_TAIL)))))
  }

  function Rows(lines: seq<Octets>): seq<Octets> {
    if lines == [] then [] else [LengthEncoded(lines[0])] + Rows(lines[1..])
  }

  /** Column count, column definition and the EOF packet after it. */
  function Head(): seq<Octets> { [[0x01], ColumnDefinition(RESULT, RESULT), EOF_PACKET] }

  function ResultPackets(text: Octets): seq<Octets> {
    Head() + (Rows(Lines(TrimSpace(text))) + [EOF_PACKET])
  }

  // ---- reading ----

  function LittleEndian(b: Octets): nat { if b == [] then 0 else b[0] + 256 * LittleEndian(b[1..]) }

  /** n octets of payload after `skip` octets of prefix, and what follows. */
  function Take(b: Octets, skip: nat, n: nat): Option<(Octets, Octets)> {
    if skip + n <= |b| then Some((b[skip..skip + n], b[skip + n..])) else None
  }

  /** A length-encoded string, in all its forms, and what follows; 0xfb is NULL and 0xff an error. */
  function DecodeString(b: Octets): Option<(Octets, Octets)> {
    if b == [] then None
    else if b[0] < 251 then Take(b, 1, b[0])
    else if b[0] == 0xfc && |b| >= 3 then Take(b, 3, LittleEndian(b[1..3]))
    else if b[0] == 0xfd && |b| >= 4 then Take(b, 4, LittleEndian(b[1..4]))
    else if b[0] == 0xfe && |b| >= 9 then Take(b, 9, LittleEndian(b[1..9]))
    else None
  }

  datatype Packet = Packet(id: byte, data: Octets)

  /** One packet and what follows. */
  function ReadFrame(b: Octets): Option<(Packet, Octets)> {
    if |b| < 4 then None
    else
      var body := Take(b, 4, LittleEndian(b[..3]));
      if body.None? then None else Some((Packet(b[3], body.value.0), body.value.1))
  }

  predicate IsEof(data: Octets) { 0 < |data| < 9 && data[0] == 0xfe }

  /** A text row of one column. */
  function DecodeRow(data: Octets): Option<Octets> {
    var s := DecodeString(data);
    if s.Some? && s.value.1 == [] then Some(s.value.0) else None
  }

  /** Rows up to the EOF packet, and what follows it. */
  function DecodeRows(b: Octets): Option<(seq<Octets>, Octets)>
    decreases |b|
  {
    var p := ReadFrame(b);
    if p.None? then None
    else if IsEof(p.value.0.data) then Some(([], p.value.1))
    else
      var row, rest := DecodeRow(p.value.0.data), DecodeRows(p.value.1);
      if row.Some? && rest.Some? then Some(([row.value] + rest.value.0, rest.value.1)) else None
  }

  /** n strings one after the other, and what follows. */
  function DecodeStrings(b: Octets, n: nat): Option<(seq<Octets>, Octets)> {
    if n == 0 then Some(([], b))
    else
      var s := DecodeString(b);
      if s.None? then None
      else
        var more := DecodeStrings(s.value.1, n - 1);
        if more.None? then None else Some(([s.value.0] + more.value.0, more.value.1))
  }

  /** Catalog, schema, table, original table, name, original name; a fixed-length part of 13 octets follows. */
  function DecodeColumn(data: Octets): Option<seq<Octets>> {
    var names := DecodeStrings(data, 6);
    if names.Some? && |names.value.1| == 13 && names.value.1[0] == 0x0c then Some(names.value.0) else None
  }

  datatype ResultSet = ResultSet(column: seq<Octets>, rows: seq<Octets>)

  /** A one-column text result set: column count, definition, EOF, rows, EOF. */
  function DecodeResult(b: Octets): Option<(ResultSet, Octets)> {
    var count := ReadFrame(b);
    if count.None? || count.value.0.data != [0x01] then None
    else
      var def := ReadFrame(count.value.1);
      if def.None? || DecodeColumn(def.value.0.data).None? then None
      else
        var eof := ReadFrame(def.value.1);
        if eof.None? || !IsEof(eof.value.0.data) then None
        else
          var rows := DecodeRows(eof.value.1);
          if rows.None? then None
          else Some((ResultSet(DecodeColumn(def.value.0.data).value, rows.value.0), rows.value.1))
  }

  // ---- strings ----

  lemma LittleEndian2(b: Octets)
    requires |b| == 2
    ensures LittleEndian(b) == b[0] as int + 256 * (b[1] as int)
  {
    assert b[1..][1..] == [];
    assert LittleEndian(b[1..]) == b[1];
  }

  lemma LittleEndian3(b: Octets)
    requires |b| == 3
    ensures LittleEndian(b) == b[0] as int + 256 * (b[1] as int) + 0x1_0000 * (b[2] as int)
  {
    LittleEndian2(b[1..]);
    assert LittleEndian(b[1..]) == b[1] as int + 256 * (b[2] as int);
  }

  lemma StringRoundTrip(s: Octets, rest: Octets)
    requires |s| < 0x1_0000
    ensures DecodeString(LengthEncoded(s) + rest) == Some((s, rest))
  {
    var b := LengthEncoded(s) + rest;
    if |s| < 251 {
      assert b[1..1 + |s|] == s && b[1 + |s|..] == rest;
    } else {
      LittleEndian2(b[1..3]);
      assert b[3..3 + |s|] == s && b[3 + |s|..] == rest;
    }
  }

  /** However much of a long row arrives, what is decoded from it is shorter than the string that was sent. */
  lemma LongStringIsLost(s: Octets, k: nat)
    requires |s| >= 0x1_0000 && k <= |LengthEncoded(s)|
    ensures DecodeRow(LengthEncoded(s)[..k]) != Some(s)
  {
    var b := LengthEncoded(s)[..k];
    if |b| >= 3 { LittleEndian2(b[1..3]); }
  }

  /** A row comes back exactly when its string fits the two length octets. */
  lemma RowRoundTripIff(s: Octets)
    ensures DecodeRow(LengthEncoded(s)) == Some(s) <==> |s| < 0x1_0000
  {
    if |s| < 0x1_0000 {
      StringRoundTrip(s, []);
      assert LengthEncoded(s) + [] == LengthEncoded(s);
    } else {
      LongStringIsLost(s, |LengthEncoded(s)|);
      assert LengthEncoded(s)[..|LengthEncoded(s)|] == LengthEncoded(s);
    }
  }

  /** The fixed part of a column definition: its length, character set 33 for utf8, VAR_STRING, no flags. */
  lemma ColumnTailMeans()
    ensures |COLUMN_TAIL| == 13 && COLUMN_TAIL[0] == 12
    ensures LittleEndian(COLUMN_TAIL[1..3]) == 33 && LittleEndian(COLUMN_TAIL[3..7]) == 0xffff_ffff
    ensures COLUMN_TAIL[7] == 253 && COLUMN_TAIL[8..] == [0, 0, 0, 0, 0]
  {
    LittleEndian2(COLUMN_TAIL[1..3]);
    var length := COLUMN_TAIL[3..7];
    assert length == [0xff, 0xff, 0xff, 0xff] && length[1..] == [0xff, 0xff, 0xff];
    LittleEndian3(length[1..]);
    assert COLUMN_TAIL[8..] == [0, 0, 0, 0, 0];
  }

  // ---- the protocol's own encoding ----

  /** A number in k octets, lowest first. */
  function Octets256(n: nat, k: nat): Octets { if k == 0 then [] else [n % 256] + Octets256(n / 256, k - 1) }

  function Pow256(k: nat): nat { if k == 0 then 1 else 256 * Pow256(k - 1) }

  lemma {:induction false} NumberReads(n: nat, k: nat)
    requires n < Pow256(k)
    ensures |Octets256(n, k)| == k && LittleEndian(Octets256(n, k)) == n
  {
    if k == 0 {
    } else {
      NumberReads(n / 256, k - 1);
      assert Octets256(n, k)[1..] == Octets256(n / 256, k - 1);
    }
  }

  /** Protocol::LengthEncodedString: the shortest of the four forms that holds the length. */
  function Standard(s: Octets): Octets {
    if |s| < 251 then [|s|] + s
    else if |s| < Pow256(2) then [0xfc] + Octets256(|s|, 2) + s
    else if |s| < Pow256(3) then [0xfd] + Octets256(|s|, 3) + s
    else [0xfe] + Octets256(|s|, 8) + s
  }

  lemma PrefixedReads(lead: byte, s: Octets, rest: Octets, k: nat)
    requires |s| < Pow256(k)
    ensures var b := [lead] + Octets256(|s|, k) + s + rest;
            |b| > k && b[0] == lead && LittleEndian(b[1..1 + k]) == |s| && Take(b, 1 + k, |s|) == Some((s, rest))
  {
    NumberReads(|s|, k);
    var b := [lead] + Octets256(|s|, k) + s + rest;
    assert b[1..1 + k] == Octets256(|s|, k);
    assert b[1 + k..1 + k + |s|] == s && b[1 + k + |s|..] == rest;
  }

  /** The client reads every string as the protocol writes it. */
  lemma StandardReads(s: Octets, rest: Octets)
    requires |s| < Pow256(8)
    ensures DecodeString(Standard(s) + rest) == Some((s, rest))
  {
    if |s| < 251 {
      StringRoundTrip(s, rest);
    } else if |s| < Pow256(2) {
      PrefixedReads(0xfc, s, rest, 2);
    } else if |s| < Pow256(3) {
      PrefixedReads(0xfd, s, rest, 3);
    } else {
      PrefixedReads(0xfe, s, rest, 8);
    }
  }

  lemma TwoOctets(n: nat)
    ensures Octets256(n, 2) == [n % 256, n / 256 % 256]
  {
    assert Octets256(n / 256, 1) == [n / 256 % 256] + Octets256(n / 256 / 256, 0);
  }

  /** The server writes a string as the protocol does if and only if it is shorter than 65536 octets. */
  lemma StandardIff(s: Octets)
    ensures LengthEncoded(s) == Standard(s) <==> |s| < 0x1_0000
  {
    TwoOctets(|s|);
    assert Pow256(2) == 0x1_0000 by { assert Pow256(1) == 256; }
    if |s| >= 0x1_0000 { assert LengthEncoded(s)[0] == 0xfc && Standard(s)[0] != 0xfc; }
  }

  /** No row packet, or beginning of one, can be taken for EOF, whatever the line. */
  lemma RowIsNotEof(s: Octets, k: nat)
    requires k <= |LengthEncoded(s)|
    ensures !IsEof(LengthEncoded(s)[..k])
  {}

  // ---- packets ----

  lemma Remainder(n: nat, q: nat, r: nat, m: nat)
    requires m > 0 && r < m && n == q * m + r
    ensures n % m == r && n / m == q
  {
    Fairness.DivUnique(n, m, q, r);
  }

  lemma ThreeOctets(n: nat)
    ensures n % 256 + 256 * (n / 256 % 256) + 0x1_0000 * (n / 0x1_0000 % 256) == n % TWO_TO_THE_24
  {
    var q1 := n / 256;
    var q2 := q1 / 256;
    var q3 := q2 / 256;
    var a, b, c := n % 256, q1 % 256, q2 % 256;
    assert n == a + 256 * q1 && q1 == b + 256 * q2 && q2 == c + 256 * q3;
    Remainder(n, q2, a + 256 * b, 0x1_0000);
    Remainder(n, q3, a + 256 * b + 0x1_0000 * c, TWO_TO_THE_24);
  }

  /** The three length octets keep the length modulo 2^24; the rest of an oversized payload is read as packets. */
  lemma FrameReads(id: byte, data: Octets, rest: Octets)
    ensures var n := |data| % TWO_TO_THE_24;
            ReadFrame(Frame(id, data) + rest) == Some((Packet(id, data[..n]), data[n..] + rest))
  {
    var b, n := Frame(id, data) + rest, |data| % TWO_TO_THE_24;
    LittleEndian3(b[..3]);
    ThreeOctets(|data|);
    assert b[4..4 + n] == data[..n] && b[4 + n..] == data[n..] + rest;
  }

  lemma FrameRoundTrip(id: byte, data: Octets, rest: Octets)
    requires |data| < TWO_TO_THE_24
    ensures ReadFrame(Frame(id, data) + rest) == Some((Packet(id, data), rest))
  {
    FrameReads(id, data, rest);
    assert data[..|data|] == data && data[|data|..] == [];
  }

  function ReadAll(b: Octets): Option<seq<Packet>>
    decreases |b|
  {
    if b == [] then Some([])
    else
      var p := ReadFrame(b);
      if p.None? then None
      else
        var more := ReadAll(p.value.1);
        if more.None? then None else Some([p.value.0] + more.value)
  }

  function Numbered(first: nat, packets: seq<Octets>): seq<Packet>
    decreases |packets|
  {
    if packets == [] then [] else [Packet(first % 256, packets[0])] + Numbered(first + 1, packets[1..])
  }

  lemma {:induction false} NumberedAt(first: nat, packets: seq<Octets>, i: nat)
    requires i < |packets|
    ensures |Numbered(first, packets)| == |packets|
    ensures Numbered(first, packets)[i] == Packet((first + i) % 256, packets[i])
    decreases i, |packets|
  {
    NumberedLength(first, packets);
    if i == 0 {
    } else {
      NumberedAt(first + 1, packets[1..], i - 1);
      assert first + 1 + (i - 1) == first + i;
    }
  }

  lemma {:induction false} NumberedLength(first: nat, packets: seq<Octets>)
    ensures |Numbered(first, packets)| == |packets|
    decreases |packets|
  {
    if packets == [] {
    } else {
      NumberedLength(first + 1, packets[1..]);
    }
  }

  lemma {:induction false} WireReads(first: nat, packets: seq<Octets>)
    requires forall i :: 0 <= i < |packets| ==> |packets[i]| < TWO_TO_THE_24
    ensures ReadAll(Wire(first, packets)) == Some(Numbered(first, packets))
    decreases |packets|
  {
    if packets == [] {
    } else {
      FrameRoundTrip(first % 256, packets[0], Wire(first + 1, packets[1..]));
      WireReads(first + 1, packets[1..]);
    }
  }

  /** What goes on the wire comes back packet by packet, with ids counting up from the first modulo 256. */
  lemma WireRoundTrip(first: nat, packets: seq<Octets>)
    requires forall i :: 0 <= i < |packets| ==> |packets[i]| < TWO_TO_THE_24
    ensures var r := ReadAll(Wire(first, packets));
            && r.Some? && |r.value| == |packets|
            && forall i :: 0 <= i < |packets| ==> r.value[i] == Packet((first + i) % 256, packets[i])
  {
    WireReads(first, packets);
    NumberedLength(first, packets);
    forall i: nat | i < |packets| ensures Numbered(first, packets)[i] == Packet((first + i) % 256, packets[i]) {
      NumberedAt(first, packets, i);
    }
  }

  lemma {:induction false} WireAppend(first: nat, a: seq<Octets>, b: seq<Octets>)
    ensures Wire(first, a + b) == Wire(first, a) + Wire(first + |a|, b)
    decreases |a|
  {
    if a == [] {
      assert a + b == b;
    } else {
      assert (a + b)[1..] == a[1..] + b;
      WireAppend(first + 1, a[1..], b);
    }
  }

  // ---- result sets ----

  predicate Short(lines: seq<Octets>) { forall i :: 0 <= i < |lines| ==> |lines[i]| < 0x1_0000 }

  lemma WireHead(first: nat, packets: seq<Octets>, rest: Octets)
    requires packets != []
    ensures Wire(first, packets) + rest == Frame(first % 256, packets[0]) + (Wire(first + 1, packets[1..]) + rest)
  {}

  lemma {:induction false} RowsRoundTripIff(first: nat, lines: seq<Octets>, rest: Octets)
    ensures DecodeRows(Wire(first, Rows(lines) + [EOF_PACKET]) + rest) == Some((lines, rest)) <==> Short(lines)
    decreases |lines|
  {
    var packets := Rows(lines) + [EOF_PACKET];
    WireHead(first, packets, rest);
    if lines == [] {
      assert packets == [EOF_PACKET] && packets[1..] == [];
      FrameRoundTrip(first % 256, EOF_PACKET, Wire(first + 1, packets[1..]) + rest);
      assert Wire(first + 1, packets[1..]) + rest == rest;
    } else {
      assert packets[1..] == Rows(lines[1..]) + [EOF_PACKET];
      RowsRoundTripIff(first + 1, lines[1..], rest);
      FirstRow(first % 256, lines[0], Wire(first + 1, packets[1..]) + rest);
      RowThenRows(lines, ReadFrame(Wire(first, packets) + rest), rest);
      assert Short(lines) <==> |lines[0]| < 0x1_0000 && Short(lines[1..]);
    }
  }

  /** Rows come back as `lines` when the first one does and the others do. */
  lemma RowThenRows(lines: seq<Octets>, p: Option<(Packet, Octets)>, rest: Octets)
    requires lines != [] && p.Some?
    ensures var row, rows := DecodeRow(p.value.0.data), DecodeRows(p.value.1);
            (row.Some? && rows.Some? && ([row.value] + rows.value.0, rows.value.1) == (lines, rest))
            <==> row == Some(lines[0]) && rows == Some((lines[1..], rest))
  {
    assert lines == [lines[0]] + lines[1..];
    var row, rows := DecodeRow(p.value.0.data), DecodeRows(p.value.1);
    if row.Some? && rows.Some? {
      assert ([row.value] + rows.value.0)[0] == row.value && ([row.value] + rows.value.0)[1..] == rows.value.0;
    }
  }

  lemma FirstRow(id: byte, line: Octets, rest: Octets)
    ensures var p := ReadFrame(Frame(id, LengthEncoded(line)) + rest);
            && p.Some? && !IsEof(p.value.0.data)
            && (DecodeRow(p.value.0.data) == Some(line) <==> |line| < 0x1_0000)
            && (|line| < 0x1_0000 ==> p.value.1 == rest)
  {
    var data := LengthEncoded(line);
    FrameReads(id, data, rest);
    RowIsNotEof(line, |data| % TWO_TO_THE_24);
    if |line| < 0x1_0000 {
      FrameRoundTrip(id, data, rest);
      RowRoundTripIff(line);
    } else {
      LongStringIsLost(line, |data| % TWO_TO_THE_24);
    }
  }

  lemma {:induction false} StringsRoundTrip(names: seq<Octets>, rest: Octets)
    requires Short(names)
    ensures DecodeStrings(Strings(names, rest), |names|) == Some((names, rest))
  {
    if names == [] {
    } else {
      StringRoundTrip(names[0], Strings(names[1..], rest));
      StringsRoundTrip(names[1..], rest);
      assert names == [names[0]] + names[1..];
    }
  }

  function Strings(names: seq<Octets>, rest: Octets): Octets {
    if names == [] then rest else LengthEncoded(names[0]) + Strings(names[1..], rest)
  }

  lemma SixStrings(n: seq<Octets>, rest: Octets)
    requires |n| == 6
    ensures Strings(n, rest) == LengthEncoded(n[0]) + (LengthEncoded(n[1]) + (LengthEncoded(n[2])
                                + (LengthEncoded(n[3]) + (LengthEncoded(n[4]) + (LengthEncoded(n[5]) + rest)))))
  {
    assert n[1..][1..] == n[2..] && n[2..][1..] == n[3..] && n[3..][1..] == n[4..] && n[4..][1..] == n[5..];
    assert n[5..][1..] == [];
    assert Strings(n[5..], rest) == LengthEncoded(n[5]) + rest;
    assert Strings(n[3..], rest) == LengthEncoded(n[3]) + (LengthEncoded(n[4]) + Strings(n[5..], rest));
    assert Strings(n[1..], rest) == LengthEncoded(n[1]) + (LengthEncoded(n[2]) + Strings(n[3..], rest));
  }

  lemma ColumnRoundTrip(name: Octets, table: Octets)
    requires |name| < 0x1_0000 && |table| < 0x1_0000
    ensures DecodeColumn(ColumnDefinition(name, table)) == Some([DEF, [], table, table, name, name])
  {
    var names := [DEF, [], table, table, name, name];
    SixStrings(names, COLUMN_TAIL);
    StringsRoundTrip(names, COLUMN_TAIL);
  }

  /**
   The result set a client decodes is exactly the lines of the trimmed text, under one column "result",
   if and only if every line is shorter than 65536 octets; whatever follows on the wire is left alone.
   */
  lemma ResultRoundTripIff(first: nat, text: Octets, rest: Octets)
    ensures DecodeResult(Wire(first, ResultPackets(text)) + rest)
            == Some((ResultSet([DEF, [], RESULT, RESULT, RESULT, RESULT], Lines(TrimSpace(text))), rest))
       <==> Short(Lines(TrimSpace(text)))
  {
    var lines := Lines(TrimSpace(text));
    HeadReads(first, Rows(lines) + [EOF_PACKET], rest);
    RowsRoundTripIff(first + 3, lines, rest);
  }

  /** Column count, definition and EOF are read as such, and the rows start after them. */
  lemma HeadReads(first: nat, packets: seq<Octets>, rest: Octets)
    ensures var rows := DecodeRows(Wire(first + 3, packets) + rest);
            DecodeResult(Wire(first, Head() + packets) + rest)
            == if rows.None? then None
               else Some((ResultSet([DEF, [], RESULT, RESULT, RESULT, RESULT], rows.value.0), rows.value.1))
  {
    var p0 := Head() + packets;
    var p1, p2 := p0[1..], p0[2..];
    assert p1[1..] == p2 && p2[1..] == packets;
    WireHead(first, p0, rest);
    WireHead(first + 1, p1, rest);
    WireHead(first + 2, p2, rest);
    FrameRoundTrip(first % 256, [0x01], Wire(first + 1, p1) + rest);
    FrameRoundTrip((first + 1) % 256, ColumnDefinition(RESULT, RESULT), Wire(first + 2, p2) + rest);
    FrameRoundTrip((first + 2) % 256, EOF_PACKET, Wire(first + 3, packets) + rest);
    ColumnRoundTrip(RESULT, RESULT);
  }

  lemma {:induction false} RowsAreShort(lines: seq<Octets>)
    requires Short(lines)
    ensures forall i :: 0 <= i < |Rows(lines)| ==> |Rows(lines)[i]| < TWO_TO_THE_24
    ensures |Rows(lines)| == |lines|
  {
    if lines == [] {
    } else {
      RowsAreShort(lines[1..]);
    }
  }

  /** A client that reads the whole answer meets lines + 4 packets with ids counting up modulo 256. */
  lemma IdsAreConsecutive(first: nat, text: Octets)
    requires Short(Lines(TrimSpace(text)))
    ensures var r := ReadAll(Wire(first, ResultPackets(text)));
            && r.Some? && |r.value| == |Lines(TrimSpace(text))| + 4
            && forall i :: 0 <= i < |r.value| ==> r.value[i].id == (first + i) % 256
  {
    RowsAreShort(Lines(TrimSpace(text)));
    WireRoundTrip(first, ResultPackets(text));
  }

  // ---- the handshake response ----

  datatype Handshake = TooShort | NoTerminator | Truncated | Parsed(username: Octets, auth: Octets)

  const HEADER := 4 + 4 + 1 + 23

  /** bytes.IndexByte */
  function IndexOf(b: Octets, x: byte): (i: Option<nat>)
    ensures i.Some? ==> i.value < |b| && b[i.value] == x && x !in b[..i.value]
    ensures i.None? ==> x !in b
  {
    if b == [] then None
    else if b[0] == x then Some(0)
    else
      var i := IndexOf(b[1..], x);
      if i.None? then None else assert b[..i.value + 1] == [b[0]] + b[1..][..i.value]; Some(i.value + 1)
  }

  function ParseHandshake(data: Octets): Handshake {
    if |data| < HEADER then TooShort
    else
      var nul := IndexOf(data[HEADER..], 0);
      if nul.None? then NoTerminator
      else
        var username, pos := data[HEADER..HEADER + nul.value], HEADER + nul.value + 1;
        if pos >= |data| then Parsed(username, [])
        else if pos + 1 + data[pos] as int > |data| then Truncated
        else Parsed(username, data[pos + 1..pos + 1 + data[pos] as int])
  }

  /** A HandshakeResponse: after the fixed part a NUL-terminated name, then nothing or a counted string. */
  ghost predicate HandshakeLayout(data: Octets, username: Octets, auth: Octets) {
    var pos := HEADER + |username| + 1;
    && |data| >= pos && 0 !in username && data[HEADER..pos] == username + [0]
    && if |data| == pos then auth == []
       else |data| >= pos + 1 + |auth| && data[pos] as int == |auth| && data[pos + 1..pos + 1 + |auth|] == auth
  }

  /** Parsing succeeds on exactly the packets of that layout, and there is only one way to read one. */
  lemma ParsesIff(data: Octets, username: Octets, auth: Octets)
    ensures ParseHandshake(data) == Parsed(username, auth) <==> HandshakeLayout(data, username, auth)
  {
    if |data| >= HEADER {
      var tail := data[HEADER..];
      var nul := IndexOf(tail, 0);
      if HandshakeLayout(data, username, auth) { TerminatorIsFirst(data, username, nul); }
      if nul.Some? {
        assert data[HEADER..HEADER + nul.value] == tail[..nul.value];
        assert data[HEADER..HEADER + nul.value + 1] == tail[..nul.value] + [0];
      }
    }
  }

  lemma TerminatorIsFirst(data: Octets, username: Octets, nul: Option<nat>)
    requires |data| >= HEADER + |username| + 1 && 0 !in username
    requires data[HEADER..HEADER + |username| + 1] == username + [0] && nul == IndexOf(data[HEADER..], 0)
    ensures nul == Some(|username|) && data[HEADER..HEADER + |username|] == username
  {
    var tail, n := data[HEADER..], |username|;
    assert tail[..n + 1] == username + [0];
    assert tail[n] == (username + [0])[n] == 0;
    forall i | 0 <= i < n ensures tail[i] != 0 { assert tail[i] == (username + [0])[i] == username[i]; }
    assert data[HEADER..HEADER + n] == tail[..n] == username;
  }

  /** Which packets are refused, and as what. */
  lemma RefusesIff(data: Octets)
    ensures ParseHandshake(data) == TooShort <==> |data| < 32
    ensures ParseHandshake(data) == NoTerminator <==> |data| >= 32 && 0 !in data[32..]
    ensures ParseHandshake(data) == Truncated <==>
              exists n: nat :: && EndsAt(data, n) && 32 + n + 1 < |data|
                               && 32 + n + 2 + data[32 + n + 1] as int > |data|
  {
    if |data| >= 32 {
      var tail, nul := data[32..], IndexOf(data[32..], 0);
      if nul.Some? { assert EndsAt(data, nul.value); }
      forall n: nat | EndsAt(data, n) ensures nul == Some(n) {
        FirstPlace(tail, 0, n);
      }
    }
  }

  lemma {:induction false} FirstPlace(b: Octets, x: byte, n: nat)
    requires n < |b| && b[n] == x && x !in b[..n]
    ensures IndexOf(b, x) == Some(n)
  {
    if n > 0 {
      assert b[0] == b[..n][0] && b[1..][..n - 1] == b[..n][1..];
      FirstPlace(b[1..], x, n - 1);
    }
  }

  /** The name after the fixed part ends at its n-th octet. */
  ghost predicate EndsAt(data: Octets, n: nat) { 32 + n < |data| && data[32 + n] == 0 && 0 !in data[32..][..n] }

  /** What a client writes: capabilities, packet size, character set, filler, name, NUL, counted answer, and more. */
  function Response(capabilities: Octets, size: Octets, charset: byte, filler: Octets,
                    username: Octets, auth: Octets, rest: Octets): Octets
    requires |auth| < 256
  {
    capabilities + size + [charset] + filler + username + [0] + [|auth|] + auth + rest
  }

  /** What a client writes is read back, if and only if the name contains no NUL. */
  lemma HandshakeRoundTripIff(capabilities: Octets, size: Octets, charset: byte, filler: Octets,
                              username: Octets, auth: Octets, rest: Octets)
    requires |capabilities| == 4 && |size| == 4 && |filler| == 23 && |auth| < 256
    ensures var data := Response(capabilities, size, charset, filler, username, auth, rest);
            ParseHandshake(data) == Parsed(username, auth) <==> 0 !in username
  {
    var data := Response(capabilities, size, charset, filler, username, auth, rest);
    ParsesIff(data, username, auth);
    ThreeParts(capabilities + size + [charset] + filler, username + [0], [|auth|] + auth + rest, data);
    var pos := 32 + |username| + 1;
    assert data[pos..][0] == |auth| && data[pos..][1..1 + |auth|] == auth;
    assert data[pos + 1..pos + 1 + |auth|] == data[pos..][1..1 + |auth|];
  }

  lemma ThreeParts(a: Octets, b: Octets, c: Octets, whole: Octets)
    requires whole == a + b + c
    ensures whole[|a|..|a| + |b|] == b && whole[|a| + |b|..] == c
  {}

  // ---- the connection ----

  class Client {
    var seqId: byte
    var reader: Octets
    var conn: Octets

    constructor (reader: Octets)
      ensures seqId == 0 && this.reader == reader && conn == []
    {
      seqId, this.reader, conn := 0, reader, [];
    }

    method WritePacket(data: Octets)
      modifies this`seqId, this`conn
      ensures conn == old(conn) + Frame(old(seqId), data) && seqId == NextId(old(seqId))
    {
      conn := conn + Header(|data|, seqId);
      conn := conn + data;
      seqId := NextId(seqId);
    }

    /** io.ReadFull takes what there is even when that is too little. */
    method ReadPacket() returns (data: Option<Octets>)
      modifies this`seqId, this`reader
      ensures var p := ReadFrame(old(reader));
              if p.Some?
              then data == Some(p.value.0.data) && reader == p.value.1 && seqId == NextId(p.value.0.id)
              else data == None && reader == []
      ensures |old(reader)| < 4 ==> seqId == old(seqId)
    {
      if |reader| < 4 {
        reader := [];
        return None;
      }
      var header := reader[..4];
      reader := reader[4..];
      var length := LengthOf(header);
      seqId := NextId(header[3]);
      assert header[..3] == old(reader)[..3];
      if |reader| < length {
        reader := [];
        return None;
      }
      data := Some(reader[..length]);
      assert reader[..length] == old(reader)[4..4 + length] && reader[length..] == old(reader)[4 + length..];
      reader := reader[length..];
    }

    /** These packets, and no others, have been written since the connection held `before`. */
    ghost predicate Sent(before: Octets, first: nat, packets: seq<Octets>)
      reads this`conn, this`seqId
    {
      conn == before + Wire(first, packets) && seqId == (first + |packets|) % 256
    }

    method Send(data: Octets, ghost before: Octets, ghost first: nat, ghost packets: seq<Octets>)
      requires Sent(before, first, packets)
      modifies this`seqId, this`conn
      ensures Sent(before, first, packets + [data])
    {
      WireSnoc(first, packets, data);
      NextInLine(first + |packets|);
      WritePacket(data);
    }

    method SendResult(text: Octets)
      modifies this`seqId, this`conn
      ensures Sent(old(conn), old(seqId), ResultPackets(text))
    {
      var lines := Lines(TrimSpace(text));
      ghost var before, first := conn, seqId;
      Send([0x01], before, first, []);
      assert [] + [[0x01]] == [[0x01]];
      Send(ColumnDefinition(RESULT, RESULT), before, first, [[0x01]]);
      Send(EOF_PACKET, before, first, [[0x01], ColumnDefinition(RESULT, RESULT)]);
      assert [[0x01], ColumnDefinition(RESULT, RESULT)] + [EOF_PACKET] == Head() + Rows(lines[..0]);
      for i := 0 to |lines|
        invariant Sent(before, first, Head() + Rows(lines[..i]))
      {
        var row := LengthEncoded(lines[i]);
        Send(row, before, first, Head() + Rows(lines[..i]));
        RowsSnoc(lines[..i], lines[i]);
        assert lines[..i + 1] == lines[..i] + [lines[i]];
        assert Head() + Rows(lines[..i]) + [row] == Head() + (Rows(lines[..i]) + [row]);
      }
      assert lines[..|lines|] == lines;
      Send(EOF_PACKET, before, first, Head() + Rows(lines));
      assert Head() + Rows(lines) + [EOF_PACKET] == ResultPackets(text);
    }
  }

  function NextId(id: byte): byte { if id == 255 then 0 else id + 1 }

  function LengthOf(header: Octets): (n: nat)
    requires |header| == 4
    ensures n == LittleEndian(header[..3])
  {
    LittleEndian3(header[..3]);
    var low, mid, high: int := header[0], header[1], header[2];
    low + mid * 256 + high * 0x1_0000
  }

  lemma NextInLine(n: nat)
    ensures NextId(n % 256) == (n + 1) % 256
  {}

  lemma WireSnoc(first: nat, packets: seq<Octets>, data: Octets)
    ensures Wire(first, packets + [data]) == Wire(first, packets) + Frame((first + |packets|) % 256, data)
  {
    WireAppend(first, packets, [data]);
    assert [data][1..] == [];
  }

  lemma {:induction false} RowsSnoc(lines: seq<Octets>, line: Octets)
    ensures Rows(lines + [line]) == Rows(lines) + [LengthEncoded(line)]
  {
    if lines == [] {
      assert [line][1..] == [];
    } else {
      assert (lines + [line])[1..] == lines[1..] + [line];
      RowsSnoc(lines[1..], line);
    }
  }
}
