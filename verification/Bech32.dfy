// Bech32 addresses: text to and from a human-readable part and a witness program.
module Bech32 {
  import opened Common
  import opened Radix
  import opened Bech32Sum
  import opened Regroup

  const CHARS: string := "qpzry9x8" + "gf2tvdw0" + "s3jn54kh" + "ce6mua7l"
  const OP_1: nat := 0x51

  datatype Program = Program(version: nat, bytes: seq<nat>)

  // The symbol a lower-case character stands for; 32 for any other character.
  function SymbolOf(c: char): nat {
    if c == 'q' then 0 else if c == 'p' then 1 else if c == 'z' then 2 else if c == 'r' then 3
    else if c == 'y' then 4 else if c == '9' then 5 else if c == 'x' then 6 else if c == '8' then 7
    else if c == 'g' then 8 else if c == 'f' then 9 else if c == '2' then 10 else if c == 't' then 11
    else if c == 'v' then 12 else if c == 'd' then 13 else if c == 'w' then 14 else if c == '0' then 15
    else if c == 's' then 16 else if c == '3' then 17 else if c == 'j' then 18 else if c == 'n' then 19
    else if c == '5' then 20 else if c == '4' then 21 else if c == 'k' then 22 else if c == 'h' then 23
    else if c == 'c' then 24 else if c == 'e' then 25 else if c == '6' then 26 else if c == 'm' then 27
    else if c == 'u' then 28 else if c == 'a' then 29 else if c == '7' then 30 else if c == 'l' then 31
    else 32
  }

  lemma SymbolOfChar(k: nat)
    requires k < 32
    ensures |CHARS| == 32 && SymbolOf(CHARS[k]) == k && Plain(CHARS[k]) && CHARS[k] != '1'
  {
    if k < 8 {
      assert CHARS[k] == "qpzry9x8"[k - 0];
    } else if k < 16 {
      assert CHARS[k] == "gf2tvdw0"[k - 8];
    } else if k < 24 {
      assert CHARS[k] == "s3jn54kh"[k - 16];
    } else {
      assert CHARS[k] == "ce6mua7l"[k - 24];
    }
  }

  lemma CharOfSymbol(c: char)
    requires SymbolOf(c) < 32
    ensures |CHARS| == 32 && CHARS[SymbolOf(c)] == c
  {
    SymbolOfChar(SymbolOf(c));
    OneChar(CHARS[SymbolOf(c)], c);
  }

  lemma OneChar(a: char, b: char)
    requires SymbolOf(a) == SymbolOf(b) < 32
    ensures a == b
  {
  }

  // ----- characters -----

  predicate IsUpper(c: char) { 'A' <= c <= 'Z' }

  predicate IsLower(c: char) { 'a' <= c <= 'z' }

  // Printable, and not upper case.
  predicate Plain(c: char) {
    33 as char <= c <= 126 as char && !IsUpper(c)
  }

  predicate Printable(s: string) {
    forall k :: 0 <= k < |s| ==> 33 as char <= s[k] <= 126 as char
  }

  predicate AllPlain(s: string) {
    forall k :: 0 <= k < |s| ==> Plain(s[k])
  }

  function ToLower(c: char): char {
    if IsUpper(c) then (c as int + 32) as char else c
  }

  function Lower(s: string): (l: string)
    ensures |l| == |s| && forall k :: 0 <= k < |s| ==> l[k] == ToLower(s[k])
  {
    if s == "" then "" else Lower(s[..|s| - 1]) + [ToLower(s[|s| - 1])]
  }

  function Text(t: seq<nat>): (s: string)
    requires Proper(32, t)
    ensures |s| == |t|
  {
    if t == [] then "" else SymbolOfChar(t[|t| - 1]); Text(t[..|t| - 1]) + [CHARS[t[|t| - 1]]]
  }

  function Read(s: string): (t: Option<seq<nat>>)
    ensures t.Some? ==> Proper(32, t.value) && |t.value| == |s|
  {
    if s == "" then Some([])
    else
      match Read(s[..|s| - 1])
      case None => None
      case Some(t) => if SymbolOf(s[|s| - 1]) < 32 then Some(t + [SymbolOf(s[|s| - 1])]) else None
  }

  lemma {:induction false} ReadText(t: seq<nat>)
    requires Proper(32, t)
    ensures Read(Text(t)) == Some(t) && AllPlain(Text(t)) && forall k :: 0 <= k < |t| ==> Text(t)[k] != '1'
  {
    hide SymbolOf, CHARS, Plain;
    if t != [] {
      SymbolOfChar(t[|t| - 1]);
      ReadText(t[..|t| - 1]);
      assert Text(t)[..|t| - 1] == Text(t[..|t| - 1]);
      assert t == t[..|t| - 1] + [t[|t| - 1]];
    }
  }

  lemma {:induction false} TextRead(s: string)
    requires Read(s).Some?
    ensures Text(Read(s).value) == s
  {
    hide SymbolOf, CHARS;
    if s != "" {
      TextRead(s[..|s| - 1]);
      CharOfSymbol(s[|s| - 1]);
      assert s == s[..|s| - 1] + [s[|s| - 1]];
      var t := Read(s).value;
      assert t[..|t| - 1] == Read(s[..|s| - 1]).value;
    }
  }

  lemma {:induction false} ReadStops(s: string, k: nat)
    requires k <= |s| && Read(s[..k]).None?
    ensures Read(s).None?
    decreases |s|
  {
    if k < |s| {
      assert s[..|s| - 1][..k] == s[..k];
      ReadStops(s[..|s| - 1], k);
    } else {
      assert s[..k] == s;
    }
  }

  // ----- what a text says -----

  // The human-readable part enters the checksum as the high bits of its characters, a zero, and
  // the low bits.
  function Highs(s: string): (t: seq<nat>)
    requires Printable(s)
    ensures |t| == |s| && Proper(32, t)
  {
    if s == "" then [] else Highs(s[..|s| - 1]) + [s[|s| - 1] as int / 32]
  }

  function Lows(s: string): (t: seq<nat>)
    ensures |t| == |s| && Proper(32, t)
  {
    if s == "" then [] else Lows(s[..|s| - 1]) + [s[|s| - 1] as int % 32]
  }

  function Expanded(hrp: string): (t: seq<nat>)
    requires Printable(hrp)
    ensures Proper(32, t)
  {
    Highs(hrp) + [0] + Lows(hrp)
  }

  predicate ProgramOk(p: Program) {
    p.version <= 16 && 2 <= |p.bytes| <= 40 && Proper(256, p.bytes)
  }

  function DataSymbols(p: Program): (t: seq<nat>)
    requires ProgramOk(p)
    ensures Proper(32, t) && |t| == 1 + (8 * |p.bytes| + 4) / 5
  {
    [p.version] + ToFives(p.bytes)
  }

  function EncodedText(hrp: string, p: Program): (s: string)
    requires Printable(hrp) && ProgramOk(p)
    ensures |s| == |hrp| + 8 + (8 * |p.bytes| + 4) / 5
  {
    hrp + "1" + Text(Sealed(Expanded(hrp), DataSymbols(p)))
  }

  // The last position from n down that holds a '1', or 0.
  function Separator(s: string, n: nat): (k: nat)
    ensures k <= n
    ensures k > 0 ==> k < |s| && s[k] == '1'
    ensures forall i :: k < i <= n && i < |s| ==> s[i] != '1'
  {
    if n == 0 || (n < |s| && s[n] == '1') then n else Separator(s, n - 1)
  }

  predicate MixedCase(s: string) {
    (exists k :: 0 <= k < |s| && IsUpper(s[k])) && (exists k :: 0 <= k < |s| && IsLower(s[k]))
  }

  lemma LowerPrintable(s: string)
    requires Printable(s)
    ensures Printable(Lower(s)) && AllPlain(Lower(s))
  {
  }

  // A human-readable part, a separator, and at least a version and a checksum.
  predicate Framed(s: string) {
    && Printable(s) && !MixedCase(s) && 8 <= |s| <= 90
    && var sep := Separator(s, |s|); 1 <= sep && sep + 8 <= |s|
  }

  function HrpOf(s: string): (hrp: string)
    requires Framed(s)
    ensures Printable(hrp) && AllPlain(hrp) && hrp != ""
  {
    LowerPrintable(s[..Separator(s, |s|)]);
    Lower(s[..Separator(s, |s|)])
  }

  function SymbolsOf(s: string): (t: Option<seq<nat>>)
    requires Framed(s)
    ensures t.Some? ==> Proper(32, t.value) && 7 <= |t.value| == |s| - Separator(s, |s|) - 1
  {
    Read(Lower(s[Separator(s, |s|) + 1..]))
  }

  function DecodedText(s: string): Option<(string, Program)> {
    if !Framed(s) || SymbolsOf(s).None? then None
    else
      var t := SymbolsOf(s).value;
      var p := Program(t[0], ToEights(t[1..|t| - 6]));
      if Checks(Expanded(HrpOf(s)), t) && ProgramOk(p) then Some((HrpOf(s), p)) else None
  }

  // ----- the two directions -----

  lemma {:induction false} LowerOfPlain(s: string)
    requires AllPlain(s)
    ensures Lower(s) == s
  {
    if s != "" {
      LowerOfPlain(s[..|s| - 1]);
    }
  }

  // The text of any symbols with their checksum is framed, and splits where it should.
  lemma FramedSymbols(hrp: string, d: seq<nat>)
    requires AllPlain(hrp) && hrp != "" && Proper(32, d) && d != [] && |hrp| + 7 + |d| <= 90
    ensures var s := hrp + "1" + Text(Sealed(Expanded(hrp), d));
            && Framed(s) && Separator(s, |s|) == |hrp| && HrpOf(s) == hrp
            && SymbolsOf(s) == Some(Sealed(Expanded(hrp), d))
  {
    hide Text, Read, Sealed, Expanded, Lower, Framed;
    var t := Sealed(Expanded(hrp), d);
    ReadText(t);
    FramedText(hrp, Text(t));
    var s := hrp + "1" + Text(t);
    assert s[..|hrp|] == hrp && s[|hrp| + 1..] == Text(t);
    LowerOfPlain(hrp);
    LowerOfPlain(Text(t));
  }

  lemma FramedText(hrp: string, tail: string)
    requires AllPlain(hrp) && AllPlain(tail) && hrp != "" && |tail| >= 7 && |hrp| + 1 + |tail| <= 90
    requires forall k :: 0 <= k < |tail| ==> tail[k] != '1'
    ensures Framed(hrp + "1" + tail) && Separator(hrp + "1" + tail, |hrp + "1" + tail|) == |hrp|
  {
    var s := hrp + "1" + tail;
    assert s[|hrp|] == '1';
    assert forall i :: |hrp| < i < |s| ==> s[i] == tail[i - |hrp| - 1];
    assert AllPlain(s);
  }

  // Whatever the groups after the version are, sealed with their checksum they are accepted, and
  // the bits beyond the last whole byte are dropped.
  lemma AnyGroupsAccepted(hrp: string, version: nat, groups: seq<nat>)
    requires AllPlain(hrp) && hrp != "" && version <= 16 && Proper(32, groups)
    requires 2 <= 5 * |groups| / 8 <= 40 && |hrp| + 8 + |groups| <= 90
    ensures DecodedText(hrp + "1" + Text(Sealed(Expanded(hrp), [version] + groups)))
            == Some((hrp, Program(version, ToEights(groups))))
  {
    hide Text, Sealed, Checks, Expanded, ToEights, Framed, HrpOf, SymbolsOf, Separator;
    var d := [version] + groups;
    var t := Sealed(Expanded(hrp), d);
    FramedSymbols(hrp, d);
    SealedKeeps(Expanded(hrp), d);
    SealDecides(Expanded(hrp), t);
    assert t[..|t| - 6] == d;
    FirstAndRest(t, version, groups);
    EightsOk(groups);
  }

  lemma FirstAndRest(t: seq<nat>, version: nat, groups: seq<nat>)
    requires |t| == |groups| + 7 && t[..|t| - 6] == [version] + groups
    ensures t[0] == version && t[1..|t| - 6] == groups
  {
    assert t[0] == t[..|t| - 6][0] && t[1..|t| - 6] == t[..|t| - 6][1..];
  }

  lemma EightsOk(groups: seq<nat>)
    requires Proper(32, groups)
    ensures Proper(256, ToEights(groups)) && |ToEights(groups)| == 5 * |groups| / 8
  {
  }

  // Decoding what was encoded gives it back.
  lemma DecodeUndoesEncode(hrp: string, p: Program)
    requires AllPlain(hrp) && hrp != "" && ProgramOk(p) && |hrp| + 8 + (8 * |p.bytes| + 4) / 5 <= 90
    ensures DecodedText(EncodedText(hrp, p)) == Some((hrp, p))
  {
    hide DecodedText, Text, Sealed, Expanded, ToEights, ToFives;
    EightsUndoFives(p.bytes);
    AnyGroupsAccepted(hrp, p.version, ToFives(p.bytes));
  }

  lemma SealedParts(hrp: string, p: Program)
    requires Printable(hrp) && ProgramOk(p)
    ensures var t := Sealed(Expanded(hrp), DataSymbols(p));
            t[..|t| - 6] == DataSymbols(p) && t[0] == p.version && t[1..|t| - 6] == ToFives(p.bytes)
  {
    hide Sealed, Expanded, ToFives;
    var d := DataSymbols(p);
    var t := Sealed(Expanded(hrp), d);
    SealedKeeps(Expanded(hrp), d);
    assert t[0] == t[..|d|][0] && t[1..|t| - 6] == t[..|d|][1..];
  }

  // The bits after the last whole byte are fewer than a symbol, and zero.
  predicate CleanPadding(t: seq<nat>) {
    5 * |t| % 8 < 5 && Low(Value(32, t), 5 * |t| % 8) == 0
  }

  // A decoded text, in lower case, is the encoding of what it says exactly when its padding is clean.
  lemma EncodeUndoesDecode(s: string)
    requires DecodedText(s).Some?
    ensures var t := SymbolsOf(s).value; var (hrp, p) := DecodedText(s).value;
            EncodedText(hrp, p) == Lower(s) <==> CleanPadding(t[1..|t| - 6])
  {
    hide Sealed, Checks, Expanded, ToEights, ToFives, Text, Framed, HrpOf, SymbolsOf, CleanPadding, DataSymbols;
    var t := SymbolsOf(s).value;
    var (hrp, p) := DecodedText(s).value;
    var n := |t| - 6;
    var whole := Sealed(Expanded(hrp), DataSymbols(p));
    CleanOrNot(t[1..n]);
    SealDecides(Expanded(hrp), t);
    SealedParts(hrp, p);
    LowerParts(s);
    SymbolsText(s);
    DataIs(p, t[..n]);
    if EncodedText(hrp, p) == Lower(s) {
      SameTail(hrp, Text(whole), Text(t));
      ReadText(whole);
      ReadText(t);
    }
  }

  // There are accepted texts with padding that is not clean, and they do not encode back: four
  // groups carry two bytes and four more bits.
  lemma DirtyPaddingAccepted(hrp: string, version: nat, groups: seq<nat>)
    requires AllPlain(hrp) && 0 < |hrp| <= 78 && version <= 16
    requires Proper(32, groups) && |groups| == 4 && groups[3] % 16 != 0
    ensures var s := hrp + "1" + Text(Sealed(Expanded(hrp), [version] + groups));
            && DecodedText(s) == Some((hrp, Program(version, ToEights(groups))))
            && Lower(s) == s != EncodedText(hrp, Program(version, ToEights(groups)))
  {
    hide Text, Sealed, Expanded, ToEights, ToFives, DecodedText, Framed, HrpOf, SymbolsOf, Lower;
    AnyGroupsAccepted(hrp, version, groups);
    var p := Program(version, ToEights(groups));
    var t, u := Sealed(Expanded(hrp), [version] + groups), Sealed(Expanded(hrp), DataSymbols(p));
    LastGroupDirty(groups);
    CleanOrNot(groups);
    SealedKeeps(Expanded(hrp), [version] + groups);
    SealedKeeps(Expanded(hrp), DataSymbols(p));
    assert t[..5][1..] == groups && u[..5][1..] == ToFives(ToEights(groups));
    if hrp + "1" + Text(t) == EncodedText(hrp, p) {
      SameTail(hrp, Text(t), Text(u));
      ReadText(t);
      ReadText(u);
    }
    ReadText(t);
    PlainText(hrp, Text(t));
    LowerOfPlain(hrp + "1" + Text(t));
  }

  lemma LastGroupDirty(groups: seq<nat>)
    requires Proper(32, groups) && |groups| == 4 && groups[3] % 16 != 0
    ensures !CleanPadding(groups)
  {
    assert groups == groups[..3] + [groups[3]];
    ValueAppend(32, groups[..3], groups[3]);
  }

  lemma PlainText(hrp: string, tail: string)
    requires AllPlain(hrp) && AllPlain(tail)
    ensures AllPlain(hrp + "1" + tail)
  {
  }

  // The data symbols of a program are given ones exactly when version and groups agree.
  lemma DataIs(p: Program, d: seq<nat>)
    requires ProgramOk(p) && Proper(32, d) && d != [] && d[0] == p.version
    ensures DataSymbols(p) == d <==> ToFives(p.bytes) == d[1..]
  {
    hide ToFives;
    assert d == [d[0]] + d[1..];
    assert DataSymbols(p)[1..] == ToFives(p.bytes);
  }

  lemma CleanOrNot(t: seq<nat>)
    requires Proper(32, t)
    ensures ToFives(ToEights(t)) == t <==> CleanPadding(t)
  {
    hide ToFives, ToEights, Low, Value;
    FivesUndoEights(t);
  }

  lemma SymbolsText(s: string)
    requires Framed(s) && SymbolsOf(s).Some?
    ensures Text(SymbolsOf(s).value) == Lower(s[Separator(s, |s|) + 1..])
  {
    hide Framed, Text, Lower, Read;
    TextRead(Lower(s[Separator(s, |s|) + 1..]));
  }

  lemma SameTail(hrp: string, a: string, b: string)
    requires hrp + "1" + a == hrp + "1" + b
    ensures a == b
  {
    assert a == (hrp + "1" + a)[|hrp| + 1..];
    assert b == (hrp + "1" + b)[|hrp| + 1..];
  }

  lemma LowerParts(s: string)
    requires Framed(s)
    ensures Lower(s) == HrpOf(s) + "1" + Lower(s[Separator(s, |s|) + 1..])
  {
    hide Separator, Lower, MixedCase, Printable;
    var n := Separator(s, |s|);
    LowerThree(s[..n], s[n], s[n + 1..]);
    assert s == s[..n] + [s[n]] + s[n + 1..];
  }

  lemma LowerThree(a: string, c: char, b: string)
    requires c == '1'
    ensures Lower(a + [c] + b) == Lower(a) + "1" + Lower(b)
  {
    hide Lower;
  }

  // ----- encoding -----

  function VersionOf(opcode: nat): nat {
    if opcode >= OP_1 then opcode + 1 - OP_1 else 0
  }

  function OpcodeOf(version: nat): nat {
    if version == 0 then 0 else version + OP_1 - 1
  }

  // A witness program as script bytes: an opcode for the version, a length, and that many bytes.
  predicate IsScript(data: seq<nat>) {
    Proper(256, data) && |data| >= 2 && |data| >= 2 + data[1]
  }

  function ProgramOf(data: seq<nat>): Program
    requires IsScript(data)
  {
    Program(VersionOf(data[0]), data[2..2 + data[1]])
  }

  function ScriptOf(p: Program): seq<nat> {
    [OpcodeOf(p.version), |p.bytes|] + p.bytes
  }

  lemma ProgramOfScript(data: seq<nat>)
    requires IsScript(data) && |data| == 2 + data[1] && !(0 < data[0] < OP_1)
    ensures ScriptOf(ProgramOf(data)) == data
  {
  }

  predicate Accepted(hrp: string, data: seq<nat>)
    requires IsScript(data)
  {
    && |hrp| <= 84 && AllPlain(hrp)
    && !(0 < data[0] < OP_1) && VersionOf(data[0]) <= 16 && 2 <= data[1] <= 40
    && |hrp| + 1 + 1 + data[1] + 6 < 91
  }

  lemma AcceptedProgram(hrp: string, data: seq<nat>)
    requires IsScript(data) && Accepted(hrp, data)
    ensures Printable(hrp) && ProgramOk(ProgramOf(data))
  {
  }

  // From script to text and back: what the encoder accepts decodes to the same script.
  lemma ScriptComesBack(hrp: string, data: seq<nat>)
    requires IsScript(data) && |data| == 2 + data[1] && Accepted(hrp, data) && hrp != ""
    requires |hrp| + 8 + (8 * data[1] + 4) / 5 <= 90
    ensures Printable(hrp) && ProgramOk(ProgramOf(data))
    ensures var r := DecodedText(EncodedText(hrp, ProgramOf(data)));
            r.Some? && r.value.0 == hrp && ScriptOf(r.value.1) == data
  {
    hide DecodedText, EncodedText, ScriptOf;
    AcceptedProgram(hrp, data);
    DecodeUndoesEncode(hrp, ProgramOf(data));
    ProgramOfScript(data);
  }

  // The encoder's own bound counts bytes, not symbols: it accepts programs whose text is longer than
  // the 90 characters it has room for. What it accepts fits if and only if the symbols are counted.
  lemma AcceptedButTooLong(hrp: string, data: seq<nat>)
    requires AllPlain(hrp) && |hrp| == 41 && IsScript(data) && data[0] == 0 && data[1] == 40
    ensures Accepted(hrp, data) && Printable(hrp) && ProgramOk(ProgramOf(data))
    ensures |EncodedText(hrp, ProgramOf(data))| == 113
  {
    AcceptedProgram(hrp, data);
  }

  lemma FitsIfSymbolsCounted(hrp: string, data: seq<nat>)
    requires IsScript(data) && Accepted(hrp, data)
    ensures Printable(hrp) && ProgramOk(ProgramOf(data))
    ensures |EncodedText(hrp, ProgramOf(data))| <= 90 <==> |hrp| + (8 * data[1] + 4) / 5 <= 82
  {
    hide EncodedText, ProgramOk, Printable;
    AcceptedProgram(hrp, data);
  }

  // One symbol goes into the checksum and onto the text.
  method Emit(chk: bv32, addr: string, c: nat, ghost head: seq<nat>, ghost hrp: string, ghost t: seq<nat>)
    returns (chk': bv32, addr': string)
    requires c < 32 && Proper(32, head) && Proper(32, t)
    requires chk == Feed(1, head + t) && addr == hrp + "1" + Text(t)
    ensures chk' == Feed(1, head + (t + [c])) && addr' == hrp + "1" + Text(t + [c])
  {
    hide X, Polymod, Word, CHARS;
    assert (head + (t + [c]))[..|head + t|] == head + t;
    assert (t + [c])[..|t|] == t;
    chk' := X(Polymod(chk), Word(c));
    SymbolOfChar(c);
    addr' := addr + [CHARS[c]];
    assert hrp + "1" + (Text(t) + [CHARS[c]]) == hrp + "1" + Text(t) + [CHARS[c]];
  }

  // The state after the human-readable part.
  method HrpState(hrp: string) returns (chk: bv32)
    requires Printable(hrp)
    ensures chk == Feed(1, Expanded(hrp))
  {
    hide X, Polymod, Word, Feed, Highs, Lows;
    chk := 1;
    var i := 0;
    NothingRead(hrp, Highs(hrp) + [0]);
    while i < |hrp|
      invariant 0 <= i <= |hrp| && chk == Feed(1, Highs(hrp[..i]))
    {
      HighsStep(hrp, i);
      chk := X(Polymod(chk), Word(hrp[i] as int / 32));
      i := i + 1;
    }
    assert hrp[..i] == hrp;
    ZeroStep(Highs(hrp));
    chk := Polymod(chk);
    i := 0;
    while i < |hrp|
      invariant 0 <= i <= |hrp| && chk == Feed(1, Highs(hrp) + [0] + Lows(hrp[..i]))
    {
      LowsStep(hrp, Highs(hrp) + [0], i);
      chk := X(Polymod(chk), Word(hrp[i] as int % 32));
      i := i + 1;
    }
    assert hrp[..i] == hrp;
  }

  lemma NothingRead(hrp: string, head: seq<nat>)
    requires Printable(hrp) && Proper(32, head)
    ensures Feed(1, Highs(hrp[..0])) == 1 && head + Lows(hrp[..0]) == head
  {
  }

  lemma HighsStep(hrp: string, i: nat)
    requires Printable(hrp) && i < |hrp|
    ensures Feed(1, Highs(hrp[..i + 1])) == X(Polymod(Feed(1, Highs(hrp[..i]))), Word(hrp[i] as int / 32))
  {
    hide X, Polymod, Word;
    assert hrp[..i + 1][..i] == hrp[..i];
    assert Highs(hrp[..i + 1])[..i] == Highs(hrp[..i]);
  }

  lemma LowsStep(hrp: string, head: seq<nat>, i: nat)
    requires i < |hrp| && Proper(32, head)
    ensures Feed(1, head + Lows(hrp[..i + 1])) == X(Polymod(Feed(1, head + Lows(hrp[..i]))), Word(hrp[i] as int % 32))
  {
    hide X, Polymod, Word;
    assert hrp[..i + 1][..i] == hrp[..i];
    assert (head + Lows(hrp[..i + 1]))[..|head| + i] == head + Lows(hrp[..i]);
  }

  lemma ZeroStep(t: seq<nat>)
    requires Proper(32, t)
    ensures Feed(1, t + [0]) == Polymod(Feed(1, t))
  {
    hide Polymod;
    assert (t + [0])[..|t|] == t;
    WordZero();
    XorFacts(Polymod(Feed(1, t)));
  }

  lemma WordZero()
    ensures Word(0) == 0
  {
  }

  // The 8-bit groups of the program, as 5-bit groups, each emitted as soon as it is complete.
  method EmitProgram(bytes: seq<nat>, chk0: bv32, addr0: string, version: nat, ghost head: seq<nat>, ghost hrp: string)
    returns (chk: bv32, addr: string)
    requires Proper(256, bytes) && version < 32 && Proper(32, head)
    requires chk0 == Feed(1, head + [version]) && addr0 == hrp + "1" + Text([version])
    ensures chk == Feed(1, head + ([version] + ToFives(bytes))) && addr == hrp + "1" + Text([version] + ToFives(bytes))
  {
    hide Feed, Text, Value, Owed, First, Second, ToFives;
    chk, addr := chk0, addr0;
    ghost var t: seq<nat> := [];
    assert [version] + t == [version];
    OwedNothing();
    var a, b, j := 0, 0, 0;
    while j < |bytes|
      invariant 0 <= j <= |bytes| && b < 256 && Proper(32, t) && |t| == 8 * j / 5
      invariant Owed(Value(256, bytes[..j]), Value(32, t), 8 * j % 5, b)
      invariant chk == Feed(1, head + ([version] + t)) && addr == hrp + "1" + Text([version] + t)
    {
      a, b := b, bytes[j];
      var x := (j % 5) * 8 - (j % 5) * 8 / 5 * 5;
      Offset(j);
      ReadByte(Value(256, bytes[..j]), Value(32, t), x, a, b);
      ValueOneMore(256, bytes, j);
      FirstIs(a, b, x);
      var c := First(a, b, x);
      chk, addr := Emit(chk, addr, c, head, hrp, [version] + t);
      ValueAppend(32, t, c);
      assert [version] + t + [c] == [version] + (t + [c]);
      t := t + [c];
      if x >= 2 {
        SecondIs(b, x);
        c := Second(b, x);
        chk, addr := Emit(chk, addr, c, head, hrp, [version] + t);
        ValueAppend(32, t, c);
        assert [version] + t + [c] == [version] + (t + [c]);
        t := t + [c];
      }
      j := j + 1;
    }
    assert bytes[..j] == bytes;
    a, b := b, 0;
    var x := (j % 5) * 8 - (j % 5) * 8 / 5 * 5;
    Offset(j);
    if j % 5 > 0 {
      ReadEnd(Value(256, bytes), Value(32, t), x, a);
      FirstIs(a, 0, x);
      var c := First(a, b, x);
      chk, addr := Emit(chk, addr, c, head, hrp, [version] + t);
      ValueAppend(32, t, c);
      assert [version] + t + [c] == [version] + (t + [c]);
      t := t + [c];
    } else {
      OwedZero(Value(256, bytes), Value(32, t), a);
    }
    ToFivesIs(bytes, t);
  }

  lemma Offset(j: nat)
    ensures (j % 5) * 8 - (j % 5) * 8 / 5 * 5 == 8 * j % 5
    ensures 8 * (j + 1) / 5 == 8 * j / 5 + (if 8 * j % 5 >= 2 then 2 else 1)
    ensures 8 * (j + 1) % 5 == if 8 * j % 5 >= 2 then 8 * j % 5 - 2 else 8 * j % 5 + 3
    ensures j % 5 > 0 <==> 8 * j % 5 > 0
    ensures (8 * j + 4) / 5 == 8 * j / 5 + (if j % 5 > 0 then 1 else 0)
    ensures 5 * ((8 * j + 4) / 5) - 8 * j == if j % 5 > 0 then 5 - 8 * j % 5 else 0
  {
    if j % 5 == 0 {
    } else if j % 5 == 1 {
    } else if j % 5 == 2 {
    } else if j % 5 == 3 {
    }
  }

  lemma OwedNothing()
    ensures Owed(Value(256, []), Value(32, []), 0, 0)
  {
  }

  lemma OwedZero(value: nat, sum: nat, a: nat)
    requires Owed(value, sum, 0, a)
    ensures value == sum
  {
  }

  lemma ValueAppend(base: nat, t: seq<nat>, c: nat)
    ensures Value(base, t + [c]) == base * Value(base, t) + c
  {
    assert (t + [c])[..|t|] == t;
  }

  lemma ValueOneMore(base: nat, s: seq<nat>, j: nat)
    requires j < |s|
    ensures Value(base, s[..j + 1]) == base * Value(base, s[..j]) + s[j]
  {
    assert s[..j + 1][..j] == s[..j];
  }

  lemma ToFivesIs(bytes: seq<nat>, t: seq<nat>)
    requires Proper(256, bytes) && Proper(32, t) && |t| == (8 * |bytes| + 4) / 5
    requires Value(32, t) == Shl(Value(256, bytes), 5 * |t| - 8 * |bytes|)
    ensures t == ToFives(bytes)
  {
    hide Value, Fives, Shl;
    FivesOfValue(t);
  }

  lemma OneMoreSymbol(before: string, d: seq<nat>, sum: seq<nat>, j: nat)
    requires Proper(32, d) && Proper(32, sum) && j < |sum|
    ensures before + Text(d + sum[..j + 1]) == before + Text(d + sum[..j]) + [CHARS[sum[j]]]
  {
    hide CHARS;
    SymbolOfChar(sum[j]);
    var t := d + sum[..j + 1];
    assert t[..|t| - 1] == d + sum[..j] && t[|t| - 1] == sum[j];
    assert before + (Text(d + sum[..j]) + [CHARS[sum[j]]]) == before + Text(d + sum[..j]) + [CHARS[sum[j]]];
  }

  // Writes the six checksum characters.
  method EmitChecksum(chk0: bv32, addr0: string, ghost head: seq<nat>, ghost hrp: string, ghost d: seq<nat>)
    returns (addr: string)
    requires Proper(32, head) && Proper(32, d)
    requires chk0 == Feed(1, head + d) && addr0 == hrp + "1" + Text(d)
    ensures addr == hrp + "1" + Text(Sealed(head, d))
  {
    hide X, Polymod, Word, CHARS, Feed, Unpacked, Text;
    var chk := chk0;
    var j := 0;
    while j < 6
      invariant 0 <= j <= 6 && chk == Shifted(chk0, j)
    {
      chk := Polymod(chk);
      j := j + 1;
    }
    chk := X(chk, 1);
    var sum := Unpacked(chk);
    addr := addr0;
    j := 0;
    assert d + sum[..0] == d;
    while j < 6
      invariant 0 <= j <= 6 && addr == hrp + "1" + Text(d + sum[..j])
    {
      SymbolOfChar(sum[j]);
      OneMoreSymbol(hrp + "1", d, sum, j);
      addr := addr + [CHARS[sum[j]]];
      j := j + 1;
    }
    assert sum[..j] == sum;
  }

  // Accepts what the format allows and writes its text, with room for the terminating NUL.
  method Encode(hrp: string, data: seq<nat>) returns (len: nat, addr: string)
    requires IsScript(data)
    requires Accepted(hrp, data) ==> |hrp| + 8 + (8 * data[1] + 4) / 5 <= 90
    ensures Accepted(hrp, data) ==>
              && Printable(hrp) && ProgramOk(ProgramOf(data))
              && addr == EncodedText(hrp, ProgramOf(data)) && len == |addr| + 1
    ensures !Accepted(hrp, data) ==> len == 0
  {
    hide Feed, Text, Sealed, ToFives, Expanded;
    addr := "";
    var i := 0;
    while i < |hrp|
      invariant 0 <= i <= |hrp| && i <= 84 && AllPlain(hrp[..i])
    {
      if i > 83 || !Plain(hrp[i]) {
        return 0, "";
      }
      i := i + 1;
    }
    assert hrp[..i] == hrp;
    var chk := HrpState(hrp);
    if 0 < data[0] < OP_1 {
      return 0, "";
    }
    var version := VersionOf(data[0]);
    if version > 16 || data[1] < 2 || data[1] > 40 || i + 1 + 1 + data[1] + 6 >= 91 {
      return 0, "";
    }
    AcceptedProgram(hrp, data);
    TextNone(hrp, Expanded(hrp));
    chk, addr := Emit(chk, hrp + "1", version, Expanded(hrp), hrp, []);
    assert [] + [version] == [version];
    chk, addr := EmitProgram(data[2..2 + data[1]], chk, addr, version, Expanded(hrp), hrp);
    addr := EmitChecksum(chk, addr, Expanded(hrp), hrp, DataSymbols(ProgramOf(data)));
    len := |addr| + 1;
  }

  lemma TextNone(hrp: string, head: seq<nat>)
    ensures hrp + "1" + Text([]) == hrp + "1" && head + [] == head
  {
  }

  // ----- decoding -----

  // The buffer after j groups: whole bytes, then one byte with the bits so far at its top, then zeros.
  ghost predicate Filled(buf: seq<nat>, groups: seq<nat>)
    requires |buf| == 52 && 5 * |groups| / 8 < 51
  {
    FilledTo(buf, 5 * |groups| / 8, 5 * |groups| % 8, Value(32, groups))
  }

  // The first p bytes and x bits of the next one hold the number sum, and nothing follows.
  ghost predicate FilledTo(buf: seq<nat>, p: nat, x: nat, sum: nat) {
    && p < |buf| && Proper(256, buf) && Held(Value(256, buf[..p]), x, buf[p], sum)
    && forall k :: p < k < |buf| ==> buf[k] == 0
  }

  lemma EmptyFilled(buf: seq<nat>)
    requires |buf| == 52 && forall k :: 0 <= k < 52 ==> buf[k] == 0
    ensures Filled(buf, [])
  {
    hide Value, Held;
    assert 5 * 0 / 8 == 0;
    assert buf[..0] == [];
    HeldNothing();
  }

  lemma HeldNothing()
    ensures Held(Value(256, []), 0, 0, Value(32, []))
  {
  }

  // The buffer after symbol c has been put at bit x of byte p.
  function WithSymbol(buf: seq<nat>, p: nat, x: nat, c: nat): (next: seq<nat>)
    requires p + 1 < |buf| && x < 8
    ensures |next| == |buf|
  {
    var next := buf[p := Top(buf[p], c, x)];
    if x > 3 then next[p + 1 := Words.Or(buf[p + 1], Rest(c, x))] else next
  }

  lemma TakenTo(buf: seq<nat>, p: nat, x: nat, sum: nat, c: nat)
    requires p + 1 < |buf| && x < 8 && c < 32 && FilledTo(buf, p, x, sum)
    ensures if x < 3 then FilledTo(WithSymbol(buf, p, x, c), p, x + 5, 32 * sum + c)
            else FilledTo(WithSymbol(buf, p, x, c), p + 1, x - 3, 32 * sum + c)
  {
    hide Value, Held, Top, Rest;
    HeldBounds(Value(256, buf[..p]), x, buf[p], sum);
    TakeGroup(Value(256, buf[..p]), x, buf[p], sum, c);
    TopIs(buf[p], c, x);
    var next := WithSymbol(buf, p, x, c);
    assert next[..p] == buf[..p] && next[..p + 1] == buf[..p] + [next[p]];
    ValueAppend(256, buf[..p], next[p]);
    if x > 3 {
      RestIs(c, x);
      RestInto(Rest(c, x));
    }
  }

  lemma SymbolTaken(buf: seq<nat>, groups: seq<nat>, c: nat)
    requires |buf| == 52 && |groups| <= 80 && c < 32 && Filled(buf, groups)
    ensures Filled(WithSymbol(buf, 5 * |groups| / 8, 5 * |groups| % 8, c), groups + [c])
  {
    hide Value, FilledTo, WithSymbol, Proper;
    Place(|groups|);
    assert |groups + [c]| == |groups| + 1;
    TakenTo(buf, 5 * |groups| / 8, 5 * |groups| % 8, Value(32, groups), c);
    ValueAppend(32, groups, c);
  }

  // Adds the group to the bits held, and starts the next byte when it spills over.
  method TakeSymbol(buf: array<nat>, ghost groups: seq<nat>, j: nat, c: nat)
    requires buf.Length == 52 && j == |groups| && j <= 80 && c < 32 && Filled(buf[..], groups)
    modifies buf
    ensures Filled(buf[..], groups + [c])
  {
    hide Filled, Top, Rest;
    var x := (j % 8) * 5 - (j % 8) * 5 / 8 * 8;
    var p := j / 8 * 5 + (j % 8) * 5 / 8;
    Place(j);
    SymbolTaken(buf[..], groups, c);
    ghost var was := buf[..];
    buf[p] := Top(buf[p], c, x);
    if x > 3 {
      buf[p + 1] := Words.Or(buf[p + 1], Rest(c, x));
    }
    assert buf[..] == WithSymbol(was, p, x, c);
  }

  lemma RestInto(r: nat)
    ensures Words.Or(0, r) == r
  {
    Words.OrZero(r);
  }

  lemma HeldBounds(value: nat, x: nat, w: nat, sum: nat)
    requires Held(value, x, w, sum)
    ensures w < 256 && x <= 8 && Low(w, 8 - x) == 0
  {
  }

  lemma Place(j: nat)
    ensures (j % 8) * 5 - (j % 8) * 5 / 8 * 8 == 5 * j % 8
    ensures j / 8 * 5 + (j % 8) * 5 / 8 == 5 * j / 8
    ensures 5 * (j + 1) / 8 == 5 * j / 8 + (if 5 * j % 8 >= 3 then 1 else 0)
    ensures 5 * (j + 1) % 8 == if 5 * j % 8 >= 3 then 5 * j % 8 - 3 else 5 * j % 8 + 5
  {
    var q, r := j / 8, j % 8;
    assert 5 * j == 8 * (5 * q) + 5 * r;
    assert 5 * j / 8 == 5 * q + 5 * r / 8 && 5 * j % 8 == 5 * r % 8;
    assert 5 * (j + 1) / 8 == 5 * q + (5 * r + 5) / 8 && 5 * (j + 1) % 8 == (5 * r + 5) % 8;
    PlaceIn(r);
  }

  lemma PlaceIn(r: nat)
    requires r < 8
    ensures (5 * r + 5) / 8 == 5 * r / 8 + (if 5 * r % 8 >= 3 then 1 else 0)
    ensures (5 * r + 5) % 8 == if 5 * r % 8 >= 3 then 5 * r % 8 - 3 else 5 * r % 8 + 5
    ensures r * 5 - r * 5 / 8 * 8 == 5 * r % 8
  {
  }

  // The whole bytes of a filled buffer are those of the groups.
  lemma FilledIsEights(buf: seq<nat>, groups: seq<nat>)
    requires |buf| == 52 && 5 * |groups| / 8 < 51 && Proper(32, groups) && Filled(buf, groups)
    ensures buf[..5 * |groups| / 8] == ToEights(groups)
  {
    hide Value, Eights;
    var bytes, x := buf[..5 * |groups| / 8], 5 * |groups| % 8;
    HeldQuotient(Value(256, bytes), x, buf[5 * |groups| / 8], Value(32, groups));
    EightsOfValue(bytes);
  }

  lemma HeldQuotient(value: nat, x: nat, w: nat, sum: nat)
    requires Held(value, x, w, sum) && x < 8
    ensures Shr(sum, x) == value
  {
    if x == 0 {
    } else if x == 1 {
    } else if x == 2 {
    } else if x == 3 {
    } else if x == 4 {
    } else if x == 5 {
    } else if x == 6 {
    }
  }

  method FindSeparator(s: string) returns (sep: nat)
    ensures sep == Separator(s, |s|)
  {
    sep := |s|;
    while sep > 0 && (sep == |s| || s[sep] != '1')
      invariant 0 <= sep <= |s| && Separator(s, |s|) == Separator(s, sep)
    {
      sep := sep - 1;
    }
  }

  method CheckChars(s: string) returns (ok: bool, upper: bool, lower: bool)
    ensures ok == Printable(s)
    ensures ok ==> (upper && lower <==> MixedCase(s))
  {
    ok, upper, lower := true, false, false;
    var i := 0;
    while i < |s|
      invariant 0 <= i <= |s| && ok && Printable(s[..i])
      invariant upper <==> exists k :: 0 <= k < i && IsUpper(s[k])
      invariant lower <==> exists k :: 0 <= k < i && IsLower(s[k])
    {
      if s[i] < 33 as char || s[i] > 126 as char {
        ok := false;
        return;
      }
      if IsLower(s[i]) { lower := true; }
      if IsUpper(s[i]) { upper := true; }
      i := i + 1;
    }
    assert s[..i] == s;
  }

  // Reads the version, the groups and the checksum; groups fill the buffer as they come.
  method ReadSymbols(s: string, sep: nat, chk0: bv32, ghost head: seq<nat>)
    returns (ok: bool, chk: bv32, version: nat, buf: array<nat>)
    requires Framed(s) && sep == Separator(s, |s|) && Proper(32, head) && chk0 == Feed(1, head)
    ensures ok <==> SymbolsOf(s).Some?
    ensures ok ==> var t := SymbolsOf(s).value;
                   chk == Feed(1, head + t) && version == t[0] && buf.Length == 52 && Filled(buf[..], t[1..|t| - 6])
  {
    hide Feed, Filled, X, Polymod, Word, Read, Printable, MixedCase, Lower, SymbolOf, Separator;
    buf := new nat[52](_ => 0);
    EmptyFilled(buf[..]);
    ok, chk, version := true, chk0, 0xff;
    ghost var tail, t: seq<nat> := Lower(s[sep + 1..]), [];
    ReadNone();
    assert tail[..0] == "" && head + [] == head;
    var i, j: int := sep + 1, -1;
    while i < |s|
      invariant sep + 1 <= i <= |s| && j == i - sep - 2 && |t| == i - sep - 1 && Proper(32, t)
      invariant Read(tail[..i - sep - 1]) == Some(t) && chk == Feed(1, head + t)
      invariant i > sep + 1 ==> version == t[0]
      invariant i <= sep + 2 ==> Filled(buf[..], [])
      invariant sep + 2 <= i <= |s| - 6 ==> Filled(buf[..], t[1..])
      invariant i > |s| - 6 ==> Filled(buf[..], t[1..|s| - sep - 7])
    {
      var c := SymbolOf(ToLower(s[i]));
      assert tail[i - sep - 1] == ToLower(s[i]);
      ReadStep(tail, i - sep - 1);
      if c >= 32 {
        ReadStops(tail, i - sep);
        ok := false;
        return;
      }
      FeedOne(head, t, c);
      chk := X(Polymod(chk), Word(c));
      if j == -1 {
        version := c;
      }
      ghost var was := t;
      t := t + [c];
      if !(j == -1 || i + 6 >= |s|) {
        assert t[1..] == was[1..] + [c];
        TakeSymbol(buf, was[1..], j, c);
      } else {
        assert i <= sep + 1 ==> t[1..] == [];
        assert i + 6 >= |s| && i > |s| - 6 ==> t[1..|s| - sep - 7] == was[1..|s| - sep - 7];
        assert i + 6 == |s| && i > sep + 1 ==> t[1..|s| - sep - 7] == was[1..];
      }
      i := i + 1;
      j := j + 1;
    }
    assert tail[..|tail|] == tail;
  }

  lemma ReadNone()
    ensures Read("") == Some([])
  {
  }

  lemma ReadStep(s: string, k: nat)
    requires k < |s| && Read(s[..k]).Some?
    ensures Read(s[..k + 1]) == if SymbolOf(s[k]) < 32 then Some(Read(s[..k]).value + [SymbolOf(s[k])]) else None
  {
    hide SymbolOf;
    assert s[..k + 1][..k] == s[..k];
  }

  lemma FeedOne(head: seq<nat>, t: seq<nat>, c: nat)
    requires Proper(32, head) && Proper(32, t) && c < 32
    ensures Feed(1, head + (t + [c])) == X(Polymod(Feed(1, head + t)), Word(c))
  {
    hide X, Polymod, Word;
    assert (head + (t + [c]))[..|head + t|] == head + t;
  }

  // The human-readable part in lower case, and the program as script bytes.
  method Decode(s: string) returns (len: nat, hrp: string, data: seq<nat>)
    ensures DecodedText(s).None? ==> len == 0
    ensures DecodedText(s).Some? ==>
              hrp == DecodedText(s).value.0 && data == ScriptOf(DecodedText(s).value.1) && len == |data|
  {
    hide Feed, Filled, Read, Lower, Separator, Printable, MixedCase, Expanded, ToEights;
    len, hrp, data := 0, "", [];
    var ok, upper, lower := CheckChars(s);
    if !ok {
      return;
    }
    var sep := FindSeparator(s);
    if |s| < 8 || |s| > 90 || sep < 1 || sep + 2 + 6 > |s| || (upper && lower) {
      return;
    }
    var chk := HrpState(HrpOf(s));
    var version, buf;
    ok, chk, version, buf := ReadSymbols(s, sep, chk, Expanded(HrpOf(s)));
    if !ok {
      return;
    }
    var bufLen := (|s| - (sep + 2 + 6)) * 5 / 8;
    if chk != 1 || version > 16 || bufLen < 2 || bufLen > 40 {
      return;
    }
    ghost var t := SymbolsOf(s).value;
    FilledIsEights(buf[..], t[1..|t| - 6]);
    assert buf[..][..bufLen] == buf[..bufLen];
    hrp := HrpOf(s);
    data := [OpcodeOf(version), bufLen] + buf[..bufLen];
    len := 2 + bufLen;
  }
}
