// Transactions as bytes: variable-length integers, serialising, parsing, and the size that is
// reported without serialising.
module TxCodec {
  import opened Common
  import opened Words
  import opened Bytes

  // A signed input carries its signature script; an unsigned one the script it spends and, unless
  // it is zero, the amount.
  datatype TxIn = TxIn(txHash: seq<u8>, index: u32, script: seq<u8>, amount: u64, signature: Option<seq<u8>>,
                       sequence: u32)
  datatype TxOut = TxOut(amount: u64, script: seq<u8>)
  datatype Tx = Tx(version: u32, inputs: seq<TxIn>, outputs: seq<TxOut>, lockTime: u32)

  const TX_INPUT_SIZE: nat := 148

  // ----- little-endian numbers -----

  lemma {:induction false} LEOfBytes(v: nat, n: nat)
    requires v < Pow2(8 * n)
    ensures LE(ToBytes(v, n)) == v
  {
    if n > 0 {
      LEAppendStep(n - 1);
      LEOfBytes(v / 0x100, n - 1);
      assert ToBytes(v, n)[1..] == ToBytes(v / 0x100, n - 1);
    }
  }

  lemma NumberBack(v: nat)
    ensures v < 0x1_0000 ==> LE(ToBytes(v, 2)) == v
    ensures v < W32 ==> LE(ToBytes(v, 4)) == v
    ensures v < W64 ==> LE(ToBytes(v, 8)) == v
  {
    hide LE, ToBytes;
    assert Pow2(8 * 2) == 0x1_0000 && Pow2(8 * 4) == W32 && Pow2(8 * 8) == W64 by {
      hide LE, ToBytes;
      Powers();
      Pow2Add(8, 8);
      Pow2Add(32, 32);
    }
    if v < 0x1_0000 {
      LEOfBytes(v, 2);
    }
    if v < W32 {
      LEOfBytes(v, 4);
    }
    if v < W64 {
      LEOfBytes(v, 8);
    }
  }

  lemma LEWithin(b: seq<u8>)
    ensures |b| == 2 ==> LE(b) < 0x1_0000
    ensures |b| == 4 ==> LE(b) < W32
    ensures |b| == 8 ==> LE(b) < W64
  {
    hide LE;
    LEBound(b);
    Powers();
    Pow2Add(8, 8);
    Pow2Add(32, 32);
  }

  // ----- variable-length integers -----

  function VarInt(i: u64): (b: seq<u8>) {
    if i < 0xfd then [i]
    else if i <= 0xffff then [0xfd] + ToBytes(i, 2)
    else if i <= 0xffff_ffff then [0xfe] + ToBytes(i, 4)
    else [0xff] + ToBytes(i, 8)
  }

  function VarIntSize(i: nat): nat {
    if i < 0xfd then 1 else if i <= 0xffff then 3 else if i <= 0xffff_ffff then 5 else 9
  }

  // The number of bytes announced by the first one.
  function VarIntLength(header: u8): nat {
    if header == 0xfd then 3 else if header == 0xfe then 5 else if header == 0xff then 9 else 1
  }

  datatype Number = Number(value: u64, next: nat)

  // The integer at a position, if the input holds all of it.
  function VarIntAt(buf: seq<u8>, pos: nat): (r: Option<Number>)
    ensures r.Some? ==> pos < r.value.next <= |buf|
  {
    if pos >= |buf| || pos + VarIntLength(buf[pos]) > |buf| then None
    else
      var n := VarIntLength(buf[pos]);
      if n == 1 then Some(Number(buf[pos], pos + 1))
      else LEWithin(buf[pos + 1..pos + n]); Some(Number(LE(buf[pos + 1..pos + n]), pos + n))
  }

  lemma VarIntBack(before: seq<u8>, i: u64, after: seq<u8>)
    ensures |VarInt(i)| == VarIntSize(i)
    ensures VarIntAt(before + VarInt(i) + after, |before|) == Some(Number(i, |before| + VarIntSize(i)))
  {
    hide LE, ToBytes;
    var buf, p, n := before + VarInt(i) + after, |before|, VarIntSize(i);
    NumberBack(i);
    assert buf[p] == VarInt(i)[0];
    if i >= 0xfd {
      assert buf[p + 1..p + n] == VarInt(i)[1..];
    }
  }

  // Reads a variable-length integer; what lies beyond the input reads as 0, but still counts.
  method ReadVarInt(buf: seq<u8>, pos: nat) returns (value: u64, len: nat)
    ensures VarIntAt(buf, pos).Some? <==> pos + len <= |buf|
    ensures VarIntAt(buf, pos).Some? ==> VarIntAt(buf, pos) == Some(Number(value, pos + len))
    ensures VarIntAt(buf, pos).None? ==> value == 0
    ensures 0 < len <= 9
  {
    hide LE;
    var h: u8 := if pos + 1 <= |buf| then buf[pos] else 0;
    if h == 0xfd {
      len := 3;
      value := ReadNumber(buf, pos + 1, 2);
    } else if h == 0xfe {
      len := 5;
      value := ReadNumber(buf, pos + 1, 4);
    } else if h == 0xff {
      len := 9;
      value := ReadNumber(buf, pos + 1, 8);
    } else {
      len := 1;
      value := h;
    }
  }

  method ReadNumber(buf: seq<u8>, pos: nat, n: nat) returns (v: u64)
    requires n == 2 || n == 4 || n == 8
    ensures v == if pos + n <= |buf| then LE(buf[pos..pos + n]) else 0
    ensures n == 4 ==> v < W32
  {
    v := 0;
    if pos + n <= |buf| {
      LEWithin(buf[pos..pos + n]);
      v := LE(buf[pos..pos + n]);
    }
  }

  // ----- the format -----

  // What an input shows in the signed form of the transaction, or, unsigned, in place of it.
  function InputScript(i: TxIn): seq<u8> {
    if i.signature.Some? then i.signature.value else i.script
  }

  function InputAmount(i: TxIn): seq<u8> {
    if i.signature.None? && i.amount != 0 then ToBytes(i.amount, 8) else []
  }

  predicate Sized(b: seq<u8>) {
    |b| < W64
  }

  function InputBytes(i: TxIn): seq<u8>
    requires Sized(InputScript(i))
  {
    i.txHash + ToBytes(i.index, 4) + VarInt(|InputScript(i)|) + InputScript(i) + InputAmount(i) + ToBytes(i.sequence, 4)
  }

  function OutputBytes(o: TxOut): seq<u8>
    requires Sized(o.script)
  {
    ToBytes(o.amount, 8) + VarInt(|o.script|) + o.script
  }

  predicate InputsOk(inputs: seq<TxIn>) {
    |inputs| < W64
    && forall k :: 0 <= k < |inputs| ==> Sized(InputScript(inputs[k])) && |inputs[k].txHash| == 32
  }

  predicate OutputsOk(outputs: seq<TxOut>) {
    |outputs| < W64 && forall k :: 0 <= k < |outputs| ==> Sized(outputs[k].script)
  }

  predicate WellFormed(tx: Tx) {
    InputsOk(tx.inputs) && OutputsOk(tx.outputs)
  }

  function InputsBytes(inputs: seq<TxIn>): seq<u8>
    requires InputsOk(inputs)
  {
    if inputs == [] then [] else InputsBytes(inputs[..|inputs| - 1]) + InputBytes(inputs[|inputs| - 1])
  }

  function OutputsBytes(outputs: seq<TxOut>): seq<u8>
    requires OutputsOk(outputs)
  {
    if outputs == [] then [] else OutputsBytes(outputs[..|outputs| - 1]) + OutputBytes(outputs[|outputs| - 1])
  }

  function TxBytes(tx: Tx): seq<u8>
    requires WellFormed(tx)
  {
    ToBytes(tx.version, 4) + VarInt(|tx.inputs|) + InputsBytes(tx.inputs)
    + VarInt(|tx.outputs|) + OutputsBytes(tx.outputs) + ToBytes(tx.lockTime, 4)
  }

  lemma FourAre(a: u8, b: u8, c: u8, d: u8)
    ensures ToBytes(a + 0x100 * b + 0x1_0000 * c + 0x100_0000 * d, 4) == [a, b, c, d]
  {
    hide ToBytes;
    assert [a, b, c, d][1..] == [b, c, d] && [b, c, d][1..] == [c, d] && [c, d][1..] == [d] && [d][1..] == [];
    assert LE([]) == 0 && LE([d]) == d;
    assert LE([c, d]) == c + 0x100 * d;
    assert LE([b, c, d]) == b + 0x100 * (c + 0x100 * d);
    assert LE([a, b, c, d]) == a + 0x100 * (b + 0x100 * (c + 0x100 * d));
    BytesOfValue([a, b, c, d]);
  }

  lemma EightAre(l: u32, h: u32)
    ensures ToBytes(l + W32 * h, 8) == ToBytes(l, 4) + ToBytes(h, 4)
  {
    hide LE, ToBytes;
    var s := ToBytes(l, 4) + ToBytes(h, 4);
    NumberBack(l);
    NumberBack(h);
    LEConcat(ToBytes(l, 4), ToBytes(h, 4));
    Powers();
    BytesOfValue(s);
  }

  // A transaction of one signed input and one output, byte by byte.
  lemma Example(txHash: seq<u8>, script: seq<u8>)
    requires |txHash| == 32
    ensures var i := TxIn(txHash, 2, script, 0, Some([0xaa]), 0xffff_fffe);
            var tx := Tx(1, [i], [TxOut(5_000_000_000, [0xbb, 0xcc])], 7);
            && WellFormed(tx)
            && TxBytes(tx)
               == [1, 0, 0, 0, 1] + txHash + [2, 0, 0, 0, 1, 0xaa, 0xfe, 0xff, 0xff, 0xff]
                  + [1, 0x00, 0xf2, 0x05, 0x2a, 1, 0, 0, 0, 2, 0xbb, 0xcc, 7, 0, 0, 0]
  {
    var i := TxIn(txHash, 2, script, 0, Some([0xaa]), 0xffff_fffe);
    var o := TxOut(5_000_000_000, [0xbb, 0xcc]);
    ExampleInput(i);
    ExampleOutput(o);
    FourAre(1, 0, 0, 0);
    FourAre(7, 0, 0, 0);
    hide ToBytes, InputBytes, OutputBytes, TxBytes;
    OneOfEach(Tx(1, [i], [o], 7));
    Joined(txHash);
  }

  lemma OneOfEach(tx: Tx)
    requires WellFormed(tx) && |tx.inputs| == |tx.outputs| == 1
    ensures TxBytes(tx) == ToBytes(tx.version, 4) + [1] + InputBytes(tx.inputs[0])
                           + [1] + OutputBytes(tx.outputs[0]) + ToBytes(tx.lockTime, 4)
  {
    hide ToBytes, InputBytes, OutputBytes;
    var i, o := tx.inputs[0], tx.outputs[0];
    assert tx.inputs == [i] && tx.outputs == [o] && [i][..0] == [] && [o][..0] == [];
    assert InputsBytes([]) == [] && OutputsBytes([]) == [];
    assert [] + InputBytes(i) == InputBytes(i) && [] + OutputBytes(o) == OutputBytes(o);
  }

  lemma Joined(h: seq<u8>)
    ensures [1, 0, 0, 0] + [1] + (h + [2, 0, 0, 0, 1, 0xaa, 0xfe, 0xff, 0xff, 0xff]) + [1]
            + [0x00, 0xf2, 0x05, 0x2a, 1, 0, 0, 0, 2, 0xbb, 0xcc] + [7, 0, 0, 0]
            == [1, 0, 0, 0, 1] + h + [2, 0, 0, 0, 1, 0xaa, 0xfe, 0xff, 0xff, 0xff]
               + [1, 0x00, 0xf2, 0x05, 0x2a, 1, 0, 0, 0, 2, 0xbb, 0xcc, 7, 0, 0, 0]
  {
  }

  lemma ExampleInput(i: TxIn)
    requires |i.txHash| == 32 && i.index == 2 && i.signature == Some([0xaa]) && i.sequence == 0xffff_fffe
    ensures InputBytes(i) == i.txHash + [2, 0, 0, 0, 1, 0xaa, 0xfe, 0xff, 0xff, 0xff]
  {
    hide ToBytes;
    FourAre(2, 0, 0, 0);
    FourAre(0xfe, 0xff, 0xff, 0xff);
  }

  lemma ExampleOutput(o: TxOut)
    requires o == TxOut(5_000_000_000, [0xbb, 0xcc])
    ensures OutputBytes(o) == [0x00, 0xf2, 0x05, 0x2a, 1, 0, 0, 0, 2, 0xbb, 0xcc]
  {
    hide ToBytes;
    FourAre(0x00, 0xf2, 0x05, 0x2a);
    FourAre(1, 0, 0, 0);
    EightAre(0x2a05_f200, 1);
  }

  // ----- size -----

  predicate FullySigned(tx: Tx) {
    forall k :: 0 <= k < |tx.inputs| ==> tx.inputs[k].signature.Some?
  }

  function InputSize(i: TxIn): nat
    requires i.signature.Some? ==> Sized(i.signature.value)
  {
    if i.signature.Some? then 32 + 4 + VarIntSize(|i.signature.value|) + |i.signature.value| + 4 else TX_INPUT_SIZE
  }

  function InputsSize(inputs: seq<TxIn>): nat
    requires InputsOk(inputs)
  {
    if inputs == [] then 0 else InputsSize(inputs[..|inputs| - 1]) + InputSize(inputs[|inputs| - 1])
  }

  function OutputsSize(outputs: seq<TxOut>): nat
    requires OutputsOk(outputs)
  {
    if outputs == [] then 0
    else OutputsSize(outputs[..|outputs| - 1])
         + 8 + VarIntSize(|outputs[|outputs| - 1].script|) + |outputs[|outputs| - 1].script|
  }

  function TxSize(tx: Tx): nat
    requires WellFormed(tx)
  {
    8 + VarIntSize(|tx.inputs|) + VarIntSize(|tx.outputs|) + InputsSize(tx.inputs) + OutputsSize(tx.outputs)
  }

  method Size(tx: Tx) returns (size: nat)
    requires WellFormed(tx)
    ensures size == TxSize(tx)
    ensures FullySigned(tx) ==> size == |TxBytes(tx)|
  {
    size := 8 + VarIntSize(|tx.inputs|) + VarIntSize(|tx.outputs|);
    var i := 0;
    assert tx.inputs[..0] == [];
    while i < |tx.inputs|
      invariant 0 <= i <= |tx.inputs|
      invariant size == 8 + VarIntSize(|tx.inputs|) + VarIntSize(|tx.outputs|) + InputsSize(tx.inputs[..i])
    {
      assert tx.inputs[..i + 1][..i] == tx.inputs[..i];
      size := size + InputSize(tx.inputs[i]);
      i := i + 1;
    }
    assert tx.inputs[..i] == tx.inputs;
    i := 0;
    ghost var base := size;
    assert tx.outputs[..0] == [];
    while i < |tx.outputs|
      invariant 0 <= i <= |tx.outputs| && size == base + OutputsSize(tx.outputs[..i])
    {
      assert tx.outputs[..i + 1][..i] == tx.outputs[..i];
      size := size + 8 + VarIntSize(|tx.outputs[i].script|) + |tx.outputs[i].script|;
      i := i + 1;
    }
    assert tx.outputs[..i] == tx.outputs;
    if FullySigned(tx) {
      InputsLength(tx.inputs);
      OutputsLength(tx.outputs);
      VarIntBack([], |tx.inputs|, []);
      VarIntBack([], |tx.outputs|, []);
    }
  }

  lemma {:induction false} InputsLength(inputs: seq<TxIn>)
    requires InputsOk(inputs) && forall k :: 0 <= k < |inputs| ==> inputs[k].signature.Some?
    ensures |InputsBytes(inputs)| == InputsSize(inputs)
  {
    if inputs != [] {
      var last := inputs[|inputs| - 1];
      InputsLength(inputs[..|inputs| - 1]);
      VarIntBack([], |InputScript(last)|, []);
    }
  }

  lemma {:induction false} OutputsLength(outputs: seq<TxOut>)
    requires OutputsOk(outputs)
    ensures |OutputsBytes(outputs)| == OutputsSize(outputs)
  {
    if outputs != [] {
      OutputsLength(outputs[..|outputs| - 1]);
      VarIntBack([], |outputs[|outputs| - 1].script|, []);
    }
  }

  // ----- parsing -----

  datatype Input = Input(input: TxIn, next: nat)
  datatype Inputs = Inputs(inputs: seq<TxIn>, next: nat)
  datatype Output = Output(output: TxOut, next: nat)
  datatype Outputs = Outputs(outputs: seq<TxOut>, next: nat)

  // One input. A script that is recognised as a public-key script marks an unsigned input, whose
  // amount follows.
  function InputAt(buf: seq<u8>, pos: nat, recognised: seq<u8> -> bool): (r: Option<Input>)
    ensures r.Some? ==> pos < r.value.next <= |buf|
  {
    if pos + 36 > |buf| || VarIntAt(buf, pos + 36).None? then None
    else
      var Number(n, p) := VarIntAt(buf, pos + 36).value;
      if p + n > |buf| then None
      else
        var script, unsigned := buf[p..p + n], recognised(buf[p..p + n]);
        var q := p + n + (if unsigned then 8 else 0);
        if q + 4 > |buf| then None
        else
          LEWithin(buf[pos + 32..pos + 36]);
          LEWithin(buf[q..q + 4]);
          LEWithin(buf[p + n..q]);
          Some(Input(
                 if unsigned then
                   TxIn(buf[pos..pos + 32], LE(buf[pos + 32..pos + 36]), script, LE(buf[p + n..q]), None,
                        LE(buf[q..q + 4]))
                 else
                   TxIn(buf[pos..pos + 32], LE(buf[pos + 32..pos + 36]), [], 0, Some(script), LE(buf[q..q + 4])),
                 q + 4))
  }

  function InputsAt(buf: seq<u8>, pos: nat, n: nat, recognised: seq<u8> -> bool): (r: Option<Inputs>)
    requires pos <= |buf|
    ensures r.Some? ==> pos <= r.value.next <= |buf| && |r.value.inputs| == n
  {
    if n == 0 then Some(Inputs([], pos))
    else
      match InputsAt(buf, pos, n - 1, recognised)
      case None => None
      case Some(Inputs(ins, p)) =>
        match InputAt(buf, p, recognised)
        case None => None
        case Some(Input(i, q)) => Some(Inputs(ins + [i], q))
  }

  function OutputAt(buf: seq<u8>, pos: nat): (r: Option<Output>)
    ensures r.Some? ==> pos < r.value.next <= |buf|
  {
    if pos + 8 > |buf| || VarIntAt(buf, pos + 8).None? then None
    else
      var Number(n, p) := VarIntAt(buf, pos + 8).value;
      if p + n > |buf| then None
      else
        LEWithin(buf[pos..pos + 8]);
        Some(Output(TxOut(LE(buf[pos..pos + 8]), buf[p..p + n]), p + n))
  }

  function OutputsAt(buf: seq<u8>, pos: nat, n: nat): (r: Option<Outputs>)
    requires pos <= |buf|
    ensures r.Some? ==> pos <= r.value.next <= |buf| && |r.value.outputs| == n
  {
    if n == 0 then Some(Outputs([], pos))
    else
      match OutputsAt(buf, pos, n - 1)
      case None => None
      case Some(Outputs(outs, p)) =>
        match OutputAt(buf, p)
        case None => None
        case Some(Output(o, q)) => Some(Outputs(outs + [o], q))
  }

  datatype Parsed = Parsed(tx: Tx, next: nat)

  // A transaction at the start of the input, with at least one input of its own.
  function TxAt(buf: seq<u8>, recognised: seq<u8> -> bool): (r: Option<Parsed>)
    ensures r.Some? ==> r.value.next <= |buf|
  {
    if |buf| < 4 || VarIntAt(buf, 4).None? then None
    else
      var Number(inCount, p) := VarIntAt(buf, 4).value;
      if inCount == 0 || InputsAt(buf, p, inCount, recognised).None? then None
      else
        var Inputs(ins, q) := InputsAt(buf, p, inCount, recognised).value;
        if VarIntAt(buf, q).None? then None
        else
          var Number(outCount, o) := VarIntAt(buf, q).value;
          if OutputsAt(buf, o, outCount).None? then None
          else
            var Outputs(outs, end) := OutputsAt(buf, o, outCount).value;
            if end + 4 > |buf| then None
            else
              LEWithin(buf[..4]);
              LEWithin(buf[end..end + 4]);
              Some(Parsed(Tx(LE(buf[..4]), ins, outs, LE(buf[end..end + 4])), end + 4))
  }

  // ----- parsing what was serialised -----

  // What an input shows once it is signed: the script and amount it spends are not written.
  function Shown(i: TxIn): TxIn {
    if i.signature.Some? then i.(script := [], amount := 0) else i
  }

  function AllShown(inputs: seq<TxIn>): (shown: seq<TxIn>)
    ensures |shown| == |inputs|
  {
    if inputs == [] then [] else AllShown(inputs[..|inputs| - 1]) + [Shown(inputs[|inputs| - 1])]
  }

  // What is written tells the two kinds of input apart: a signature is not taken for a public-key
  // script, and an unsigned input has such a script and a non-zero amount.
  predicate ReadsBack(i: TxIn, recognised: seq<u8> -> bool) {
    && |i.txHash| == 32 && Sized(InputScript(i))
    && if i.signature.Some? then !recognised(i.signature.value) else recognised(i.script) && i.amount != 0
  }

  lemma InputBack(before: seq<u8>, i: TxIn, after: seq<u8>, recognised: seq<u8> -> bool)
    requires ReadsBack(i, recognised)
    ensures InputAt(before + InputBytes(i) + after, |before|, recognised)
            == Some(Input(Shown(i), |before| + |InputBytes(i)|))
  {
    hide LE, ToBytes, VarInt, VarIntAt, VarIntSize, Shown;
    var buf, pos := before + InputBytes(i) + after, |before|;
    var script := InputScript(i);
    var head := before + i.txHash + ToBytes(i.index, 4);
    var tail := script + InputAmount(i) + ToBytes(i.sequence, 4) + after;
    VarIntBack(head, |script|, tail);
    assert buf == head + VarInt(|script|) + tail;
    InputParts(before, i, after);
    ShownParts(i, recognised);
  }

  lemma InputParts(before: seq<u8>, i: TxIn, after: seq<u8>)
    requires |i.txHash| == 32 && Sized(InputScript(i))
    ensures var buf, pos := before + InputBytes(i) + after, |before|;
            var p := pos + 36 + |VarInt(|InputScript(i)|)|; var q := p + |InputScript(i)| + |InputAmount(i)|;
            && q + 4 == pos + |InputBytes(i)| <= |buf|
            && buf[pos..pos + 32] == i.txHash && buf[pos + 32..pos + 36] == ToBytes(i.index, 4)
            && buf[p..p + |InputScript(i)|] == InputScript(i)
            && buf[p + |InputScript(i)|..q] == InputAmount(i) && buf[q..q + 4] == ToBytes(i.sequence, 4)
  {
    hide ToBytes, VarInt, InputScript, InputAmount;
  }

  lemma ShownParts(i: TxIn, recognised: seq<u8> -> bool)
    requires ReadsBack(i, recognised)
    ensures LE(ToBytes(i.index, 4)) == i.index && LE(ToBytes(i.sequence, 4)) == i.sequence
    ensures LE(ToBytes(i.amount, 8)) == i.amount
    ensures Shown(i) == if recognised(InputScript(i))
                        then TxIn(i.txHash, i.index, InputScript(i), i.amount, None, i.sequence)
                        else TxIn(i.txHash, i.index, [], 0, Some(InputScript(i)), i.sequence)
  {
    hide LE, ToBytes;
    NumberBack(i.index);
    NumberBack(i.sequence);
    NumberBack(i.amount);
  }

  lemma {:induction false} InputsBack(before: seq<u8>, inputs: seq<TxIn>, after: seq<u8>, recognised: seq<u8> -> bool)
    requires InputsOk(inputs) && forall k :: 0 <= k < |inputs| ==> ReadsBack(inputs[k], recognised)
    ensures InputsAt(before + InputsBytes(inputs) + after, |before|, |inputs|, recognised)
            == Some(Inputs(AllShown(inputs), |before| + |InputsBytes(inputs)|))
  {
    hide InputAt, InputBytes, InputsAt, InputsBytes, ReadsBack, Sized, Shown;
    NoneBack(before, after, recognised);
    if inputs != [] {
      var front, last := inputs[..|inputs| - 1], inputs[|inputs| - 1];
      var pre, post := before + InputsBytes(front), InputBytes(last) + after;
      InputsBack(before, front, post, recognised);
      InputBack(pre, last, after, recognised);
      InputsBytesStep(inputs);
      Reassociate(before, InputsBytes(front), InputBytes(last), after);
      var buf := before + InputsBytes(inputs) + after;
      InputsAtStep(buf, |before|, |inputs|, recognised, AllShown(front), Shown(last), |pre|,
                   |pre| + |InputBytes(last)|);
    }
  }

  lemma NoneBack(before: seq<u8>, after: seq<u8>, recognised: seq<u8> -> bool)
    ensures InputsBytes([]) == [] && OutputsBytes([]) == [] && before + [] + after == before + after
    ensures InputsAt(before + after, |before|, 0, recognised) == Some(Inputs([], |before|))
    ensures OutputsAt(before + after, |before|, 0) == Some(Outputs([], |before|))
  {
  }

  lemma Reassociate(a: seq<u8>, b: seq<u8>, c: seq<u8>, d: seq<u8>)
    ensures a + (b + c) + d == (a + b) + (c + d) == (a + b) + c + d
  {
  }

  lemma InputsBytesStep(inputs: seq<TxIn>)
    requires InputsOk(inputs) && inputs != []
    ensures InputsBytes(inputs) == InputsBytes(inputs[..|inputs| - 1]) + InputBytes(inputs[|inputs| - 1])
  {
  }

  lemma InputsAtStep(buf: seq<u8>, pos: nat, n: nat, recognised: seq<u8> -> bool, ins: seq<TxIn>, i: TxIn,
                     p: nat, q: nat)
    requires pos <= |buf| && n > 0 && InputsAt(buf, pos, n - 1, recognised) == Some(Inputs(ins, p))
    requires InputAt(buf, p, recognised) == Some(Input(i, q))
    ensures InputsAt(buf, pos, n, recognised) == Some(Inputs(ins + [i], q))
  {
  }

  lemma OutputBack(before: seq<u8>, o: TxOut, after: seq<u8>)
    requires Sized(o.script)
    ensures OutputAt(before + OutputBytes(o) + after, |before|) == Some(Output(o, |before| + |OutputBytes(o)|))
  {
    hide LE, ToBytes, VarInt, VarIntAt, VarIntSize;
    var buf, pos := before + OutputBytes(o) + after, |before|;
    var head := before + ToBytes(o.amount, 8);
    VarIntBack(head, |o.script|, o.script + after);
    assert buf == head + VarInt(|o.script|) + (o.script + after);
    NumberBack(o.amount);
    var p := |head| + |VarInt(|o.script|)|;
    assert buf[p..p + |o.script|] == o.script;
    assert buf[pos..pos + 8] == ToBytes(o.amount, 8);
  }

  lemma {:induction false} OutputsBack(before: seq<u8>, outputs: seq<TxOut>, after: seq<u8>)
    requires OutputsOk(outputs)
    ensures OutputsAt(before + OutputsBytes(outputs) + after, |before|, |outputs|)
            == Some(Outputs(outputs, |before| + |OutputsBytes(outputs)|))
  {
    hide OutputAt, OutputBytes, OutputsAt, OutputsBytes, Sized;
    NoneBack(before, after, _ => false);
    if outputs != [] {
      var front, last := outputs[..|outputs| - 1], outputs[|outputs| - 1];
      var pre, post := before + OutputsBytes(front), OutputBytes(last) + after;
      OutputsBack(before, front, post);
      OutputBack(pre, last, after);
      OutputsBytesStep(outputs);
      Reassociate(before, OutputsBytes(front), OutputBytes(last), after);
      var buf := before + OutputsBytes(outputs) + after;
      OutputsAtStep(buf, |before|, |outputs|, front, last, |pre|, |pre| + |OutputBytes(last)|);
      assert outputs == front + [last];
    }
  }

  lemma OutputsBytesStep(outputs: seq<TxOut>)
    requires OutputsOk(outputs) && outputs != []
    ensures OutputsBytes(outputs) == OutputsBytes(outputs[..|outputs| - 1]) + OutputBytes(outputs[|outputs| - 1])
  {
  }

  lemma OutputsAtStep(buf: seq<u8>, pos: nat, n: nat, outs: seq<TxOut>, o: TxOut, p: nat, q: nat)
    requires pos <= |buf| && n > 0 && OutputsAt(buf, pos, n - 1) == Some(Outputs(outs, p))
    requires OutputAt(buf, p) == Some(Output(o, q))
    ensures OutputsAt(buf, pos, n) == Some(Outputs(outs + [o], q))
  {
  }

  // Parsing undoes serialising, whatever follows in the buffer, but for the scripts and amounts that
  // signed inputs spend, which are not written.
  lemma ParseUndoesSerialize(tx: Tx, after: seq<u8>, recognised: seq<u8> -> bool)
    requires WellFormed(tx) && tx.inputs != []
    requires forall k :: 0 <= k < |tx.inputs| ==> ReadsBack(tx.inputs[k], recognised)
    ensures TxAt(TxBytes(tx) + after, recognised) == Some(Parsed(tx.(inputs := AllShown(tx.inputs)), |TxBytes(tx)|))
  {
    hide LE, ToBytes, VarInt, VarIntAt, VarIntSize, InputsAt, OutputsAt, InputsBytes, OutputsBytes;
    var buf := TxBytes(tx) + after;
    var v, ni, ins := ToBytes(tx.version, 4), VarInt(|tx.inputs|), InputsBytes(tx.inputs);
    var no, outs, lock := VarInt(|tx.outputs|), OutputsBytes(tx.outputs), ToBytes(tx.lockTime, 4);
    VarIntBack(v, |tx.inputs|, ins + no + outs + lock + after);
    assert buf == v + ni + (ins + no + outs + lock + after);
    InputsBack(v + ni, tx.inputs, no + outs + lock + after, recognised);
    assert buf == (v + ni) + ins + (no + outs + lock + after);
    VarIntBack(v + ni + ins, |tx.outputs|, outs + lock + after);
    assert buf == (v + ni + ins) + no + (outs + lock + after);
    OutputsBack(v + ni + ins + no, tx.outputs, lock + after);
    assert buf == (v + ni + ins + no) + outs + (lock + after);
    NumberBack(tx.version);
    NumberBack(tx.lockTime);
    var end := |v + ni + ins + no + outs|;
    assert buf[..4] == v && buf[end..end + 4] == lock;
  }

  // Where signed inputs carry neither, the transaction itself comes back.
  lemma {:induction false} NothingHidden(inputs: seq<TxIn>)
    requires forall i :: i in inputs && i.signature.Some? ==> i.script == [] && i.amount == 0
    ensures AllShown(inputs) == inputs
  {
    if inputs != [] {
      NothingHidden(inputs[..|inputs| - 1]);
      assert inputs == inputs[..|inputs| - 1] + [inputs[|inputs| - 1]];
    }
  }

  // ----- 64-bit positions -----

  // The source compares positions with the end of the buffer in 64-bit arithmetic.
  predicate EndsInside(off: nat, n: u64, len: nat) {
    (off + n) % W64 <= len
  }

  // That is right if and only if the sum does not wrap around into the buffer.
  lemma RightUnlessWrapped(off: u64, n: u64, len: u64)
    ensures (EndsInside(off, n, len) <==> off + n <= len)
            <==> off + n < W64 || off + n - W64 > len
  {
  }

  // A script of n bytes at q is not all in the buffer, and yet the test for its end passes, or the
  // test for the number after it does. The source then copies what is not there.
  predicate Strays(q: nat, n: u64, len: nat) {
    && q + n > len
    && (EndsInside(q, n, len) || EndsInside((q + n) % W64, 4, len))
  }

  lemma StraysIff(q: nat, n: u64, len: nat)
    requires 4 <= len < W64 - 64 && q <= len + 45
    ensures Strays(q, n, len) <==> W64 - 4 <= q + n <= W64 + len
  {
  }

  // Otherwise the tests are right, and a script that is cut short leaves the position past the end.
  lemma RightUnlessStrays(q: nat, n: u64, len: nat)
    requires len < W64 - 64 && q <= len + 45 && !Strays(q, n, len)
    ensures EndsInside(q, n, len) <==> q + n <= len
    ensures q + n <= len ==> (q + n) % W64 == q + n
    ensures q + n > len ==> (q + n) % W64 > len
  {
  }

  lemma StraysIsCut(q: nat, n: u64, len: nat)
    requires Strays(q, n, len)
    ensures q + n > len
  {
  }

  lemma NoneStraysBeyond(q: nat, len: nat)
    requires len < q < W64 - 8
    ensures !Strays(q, 0, len) && !EndsInside(q, 0, len) && q % W64 == q
  {
  }

  // The script whose length stands at p strays.
  predicate StraysAt(buf: seq<u8>, p: nat) {
    VarIntAt(buf, p).Some? && Strays(VarIntAt(buf, p).value.next, VarIntAt(buf, p).value.value, |buf|)
  }

  // A length that brings the sum back to the start of the buffer does, in any input.
  lemma WrappedLength(before: seq<u8>, after: seq<u8>, recognised: seq<u8> -> bool)
    requires |before| == 36
    ensures var n: u64 := W64 - 45; var buf := before + VarInt(n) + after;
            |buf| < n ==> StraysAt(buf, 36) && InputAt(buf, 0, recognised).None?
  {
    hide VarInt, VarIntAt;
    VarIntBack(before, W64 - 45, after);
  }

  // Reads one input; the position passes the end when the input is cut short. Does not return an
  // input when its script strays.
  method ParseInput(buf: seq<u8>, pos: nat, recognised: seq<u8> -> bool)
    returns (input: TxIn, off: nat, strays: bool)
    requires pos <= |buf| < W64 - 64
    ensures strays <==> StraysAt(buf, pos + 36)
    ensures !strays ==> (InputAt(buf, pos, recognised).Some? <==> off <= |buf|)
    ensures InputAt(buf, pos, recognised).Some? ==>
              !strays && InputAt(buf, pos, recognised) == Some(Input(input, off))
  {
    hide LE, Strays, EndsInside, VarIntAt;
    off := pos;
    var txHash := if off + 32 <= |buf| then buf[off..off + 32] else seq(32, _ => 0);
    off := off + 32;
    var index := ReadNumber(buf, off, 4);
    off := off + 4;
    var sLen, len := ReadVarInt(buf, off);
    off := off + len;
    strays := Strays(off, sLen, |buf|);
    input := TxIn(txHash, index, [], 0, None, 0);
    if off > |buf| {
      NoneStraysBeyond(off, |buf|);
    }
    if strays {
      StraysIsCut(off, sLen, |buf|);
      return;
    }
    var script, amount, signature;
    script, amount, signature, off := ParseScript(buf, off, sLen, recognised);
    var sequence := ReadNumber(buf, off, 4);
    off := off + 4;
    input := TxIn(txHash, index, script, amount, signature, sequence);
  }

  // A script that is recognised is spent by an unsigned input, and an amount follows; any other
  // signs the input.
  method ParseScript(buf: seq<u8>, q: nat, n: u64, recognised: seq<u8> -> bool)
    returns (script: seq<u8>, amount: u64, signature: Option<seq<u8>>, off: nat)
    requires |buf| < W64 - 64 && q <= |buf| + 45 && !Strays(q, n, |buf|)
    ensures q + n <= |buf| && recognised(buf[q..q + n]) ==>
              && script == buf[q..q + n] && signature == None && off == q + n + 8
              && amount == if off <= |buf| then LE(buf[q + n..off]) else 0
    ensures q + n <= |buf| && !recognised(buf[q..q + n]) ==>
              script == [] && amount == 0 && signature == Some(buf[q..q + n]) && off == q + n
    ensures q + n > |buf| ==> off > |buf|
  {
    RightUnlessStrays(q, n, |buf|);
    hide LE, Strays, EndsInside;
    script, amount, signature, off := [], 0, None, q;
    if EndsInside(off, n, |buf|) && recognised(buf[off..off + n]) {
      script := buf[off..off + n];
      amount := ReadNumber(buf, off + n, 8);
      off := off + 8;
    } else if EndsInside(off, n, |buf|) {
      signature := Some(buf[off..off + n]);
    }
    off := (off + n) % W64;
  }

  method ParseOutput(buf: seq<u8>, pos: nat) returns (output: TxOut, off: nat, strays: bool)
    requires pos <= |buf| < W64 - 64
    ensures strays <==> StraysAt(buf, pos + 8)
    ensures !strays ==> (OutputAt(buf, pos).Some? <==> off <= |buf|)
    ensures OutputAt(buf, pos).Some? ==> !strays && OutputAt(buf, pos) == Some(Output(output, off))
  {
    hide LE, Strays, EndsInside, VarIntAt;
    off := pos;
    var amount := ReadNumber(buf, off, 8);
    off := off + 8;
    var sLen, len := ReadVarInt(buf, off);
    off := off + len;
    strays := Strays(off, sLen, |buf|);
    if off > |buf| {
      NoneStraysBeyond(off, |buf|);
    } else if !strays {
      RightUnlessStrays(off, sLen, |buf|);
    }
    output := TxOut(amount, []);
    if strays {
      StraysIsCut(off, sLen, |buf|);
      return;
    }
    var script: seq<u8> := [];
    if EndsInside(off, sLen, |buf|) {
      script := buf[off..off + sLen];
    }
    off := (off + sLen) % W64;
    output := TxOut(amount, script);
  }

  // Some input, or output, strays, with all those before it there.
  ghost predicate InputsStray(buf: seq<u8>, pos: nat, n: nat, recognised: seq<u8> -> bool)
    requires pos <= |buf|
  {
    exists k: nat :: k < n && InputsAt(buf, pos, k, recognised).Some?
                     && StraysAt(buf, InputsAt(buf, pos, k, recognised).value.next + 36)
  }

  ghost predicate OutputsStray(buf: seq<u8>, pos: nat, n: nat)
    requires pos <= |buf|
  {
    exists k: nat :: k < n && OutputsAt(buf, pos, k).Some? && StraysAt(buf, OutputsAt(buf, pos, k).value.next + 8)
  }

  ghost predicate TxStrays(buf: seq<u8>, recognised: seq<u8> -> bool) {
    && |buf| >= 4 && VarIntAt(buf, 4).Some?
    && var Number(inCount, p) := VarIntAt(buf, 4).value;
    || InputsStray(buf, p, inCount, recognised)
    || (&& InputsAt(buf, p, inCount, recognised).Some?
        && var q := InputsAt(buf, p, inCount, recognised).value.next;
           && VarIntAt(buf, q).Some?
           && var Number(outCount, o) := VarIntAt(buf, q).value; OutputsStray(buf, o, outCount))
  }

  // What is all there does not stray: only a transaction that is cut short can.
  lemma InputWhole(buf: seq<u8>, pos: nat, recognised: seq<u8> -> bool)
    requires InputAt(buf, pos, recognised).Some?
    ensures !StraysAt(buf, pos + 36)
  {
    hide LE, EndsInside;
  }

  lemma OutputWhole(buf: seq<u8>, pos: nat)
    requires OutputAt(buf, pos).Some?
    ensures !StraysAt(buf, pos + 8)
  {
    hide LE, EndsInside;
  }

  lemma {:induction false} InputsWhole(buf: seq<u8>, pos: nat, k: nat, n: nat, recognised: seq<u8> -> bool)
    requires pos <= |buf| && k < n && InputsAt(buf, pos, n, recognised).Some?
    ensures InputsAt(buf, pos, k, recognised).Some?
    ensures !StraysAt(buf, InputsAt(buf, pos, k, recognised).value.next + 36)
    decreases n
  {
    hide InputAt, StraysAt;
    if k < n - 1 {
      InputsWhole(buf, pos, k, n - 1, recognised);
    } else {
      InputWhole(buf, InputsAt(buf, pos, k, recognised).value.next, recognised);
    }
  }

  lemma {:induction false} OutputsWhole(buf: seq<u8>, pos: nat, k: nat, n: nat)
    requires pos <= |buf| && k < n && OutputsAt(buf, pos, n).Some?
    ensures OutputsAt(buf, pos, k).Some?
    ensures !StraysAt(buf, OutputsAt(buf, pos, k).value.next + 8)
    decreases n
  {
    hide OutputAt, StraysAt;
    if k < n - 1 {
      OutputsWhole(buf, pos, k, n - 1);
    } else {
      OutputWhole(buf, OutputsAt(buf, pos, k).value.next);
    }
  }

  lemma WholeStraysNowhere(buf: seq<u8>, recognised: seq<u8> -> bool)
    requires TxAt(buf, recognised).Some?
    ensures !TxStrays(buf, recognised)
  {
    hide InputsAt, OutputsAt, VarIntAt, LE, StraysAt;
    var Number(inCount, p) := VarIntAt(buf, 4).value;
    var q := InputsAt(buf, p, inCount, recognised).value.next;
    var Number(outCount, o) := VarIntAt(buf, q).value;
    forall k: nat | k < inCount
      ensures InputsAt(buf, p, k, recognised).Some?
      ensures !StraysAt(buf, InputsAt(buf, p, k, recognised).value.next + 36)
    {
      InputsWhole(buf, p, k, inCount, recognised);
    }
    forall k: nat | k < outCount
      ensures OutputsAt(buf, o, k).Some? && !StraysAt(buf, OutputsAt(buf, o, k).value.next + 8)
    {
      OutputsWhole(buf, o, k, outCount);
    }
  }

  lemma {:induction false} InputsStop(buf: seq<u8>, pos: nat, k: nat, n: nat, recognised: seq<u8> -> bool)
    requires pos <= |buf| && k <= n && InputsAt(buf, pos, k, recognised).None?
    ensures InputsAt(buf, pos, n, recognised).None?
    decreases n
  {
    if k < n {
      InputsStop(buf, pos, k, n - 1, recognised);
    }
  }

  lemma {:induction false} OutputsStop(buf: seq<u8>, pos: nat, k: nat, n: nat)
    requires pos <= |buf| && k <= n && OutputsAt(buf, pos, k).None?
    ensures OutputsAt(buf, pos, n).None?
    decreases n
  {
    if k < n {
      OutputsStop(buf, pos, k, n - 1);
    }
  }

  // Once past the end, the position stays there.
  method ParseInputs(buf: seq<u8>, pos: nat, count: nat, recognised: seq<u8> -> bool)
    returns (ins: seq<TxIn>, off: nat, strays: bool)
    requires pos <= |buf| < W64 - 64
    ensures strays <==> InputsStray(buf, pos, count, recognised)
    ensures !strays ==> (InputsAt(buf, pos, count, recognised).Some? <==> off <= |buf|)
    ensures !strays && off <= |buf| ==> InputsAt(buf, pos, count, recognised) == Some(Inputs(ins, off))
  {
    hide InputAt, StraysAt;
    ins, off, strays := [], pos, false;
    var i := 0;
    while off <= |buf| && i < count
      invariant 0 <= i <= count && |ins| == i
      invariant !InputsStray(buf, pos, i, recognised)
      invariant InputsAt(buf, pos, i, recognised).Some? <==> off <= |buf|
      invariant off <= |buf| ==> InputsAt(buf, pos, i, recognised) == Some(Inputs(ins, off))
      decreases count - i
    {
      var input;
      input, off, strays := ParseInput(buf, off, recognised);
      if strays {
        return;
      }
      ins := ins + [input];
      i := i + 1;
    }
    forall k: nat | i < k <= count ensures off > |buf| ==> InputsAt(buf, pos, k, recognised).None? {
      if off > |buf| {
        InputsStop(buf, pos, i, k, recognised);
      }
    }
  }

  method ParseOutputs(buf: seq<u8>, pos: nat, count: nat) returns (outs: seq<TxOut>, off: nat, strays: bool)
    requires pos <= |buf| < W64 - 64
    ensures strays <==> OutputsStray(buf, pos, count)
    ensures !strays ==> (OutputsAt(buf, pos, count).Some? <==> off <= |buf|)
    ensures !strays && off <= |buf| ==> OutputsAt(buf, pos, count) == Some(Outputs(outs, off))
  {
    hide OutputAt, StraysAt;
    outs, off, strays := [], pos, false;
    var i := 0;
    while off <= |buf| && i < count
      invariant 0 <= i <= count && |outs| == i
      invariant !OutputsStray(buf, pos, i)
      invariant OutputsAt(buf, pos, i).Some? <==> off <= |buf|
      invariant off <= |buf| ==> OutputsAt(buf, pos, i) == Some(Outputs(outs, off))
      decreases count - i
    {
      var output;
      output, off, strays := ParseOutput(buf, off);
      if strays {
        return;
      }
      outs := outs + [output];
      i := i + 1;
    }
    forall k: nat | i < k <= count ensures off > |buf| ==> OutputsAt(buf, pos, k).None? {
      if off > |buf| {
        OutputsStop(buf, pos, i, k);
      }
    }
  }

  // The transaction, and when all of it is signed the bytes its hash is taken of. Where a script
  // strays, which can only be in a transaction that is cut short, nothing is promised.
  method Parse(buf: seq<u8>, recognised: seq<u8> -> bool)
    returns (tx: Option<Tx>, hashed: Option<seq<u8>>, strays: bool)
    requires |buf| < W64 - 64
    ensures strays <==> TxStrays(buf, recognised)
    ensures tx == if TxAt(buf, recognised).Some? then Some(TxAt(buf, recognised).value.tx) else None
    ensures tx.Some? ==> !strays
    ensures tx.Some? ==> hashed == if FullySigned(tx.value) then Some(buf[..TxAt(buf, recognised).value.next]) else None
  {
    hide LE, InputsAt, OutputsAt, VarIntAt, InputsStray, OutputsStray, TxStrays;
    TxStraysWhere(buf, recognised);
    if TxAt(buf, recognised).Some? {
      WholeStraysNowhere(buf, recognised);
    }
    tx, hashed, strays := None, None, false;
    var off := 0;
    var version := ReadNumber(buf, off, 4);
    off := off + 4;
    var inCount, len := ReadVarInt(buf, off);
    off := off + len;
    if off > |buf| {
      return;
    }
    var ins, outs;
    ins, off, strays := ParseInputs(buf, off, inCount, recognised);
    if strays || off > |buf| {
      return;
    }
    var outCount;
    outCount, len := ReadVarInt(buf, off);
    off := off + len;
    if off > |buf| {
      return;
    }
    outs, off, strays := ParseOutputs(buf, off, outCount);
    if strays {
      return;
    }
    var lockTime := ReadNumber(buf, off, 4);
    off := off + 4;
    if inCount == 0 || off > |buf| {
      return;
    }
    tx := Some(Tx(version, ins, outs, lockTime));
    var isSigned := AllSigned(ins);
    if isSigned {
      hashed := Some(buf[..off]);
    }
  }

  lemma TxStraysWhere(buf: seq<u8>, recognised: seq<u8> -> bool)
    ensures |buf| < 4 || VarIntAt(buf, 4).None? ==> !TxStrays(buf, recognised)
    ensures |buf| >= 4 && VarIntAt(buf, 4).Some? ==>
              var Number(inCount, p) := VarIntAt(buf, 4).value;
              && (InputsStray(buf, p, inCount, recognised) ==> TxStrays(buf, recognised))
              && (!InputsStray(buf, p, inCount, recognised) ==>
                    (TxStrays(buf, recognised) <==>
                     && InputsAt(buf, p, inCount, recognised).Some?
                     && var q := InputsAt(buf, p, inCount, recognised).value.next;
                        && VarIntAt(buf, q).Some?
                        && var Number(outCount, o) := VarIntAt(buf, q).value; OutputsStray(buf, o, outCount)))
  {
    hide InputsAt, OutputsAt, VarIntAt, InputsStray, OutputsStray;
  }

  method AllSigned(ins: seq<TxIn>) returns (r: bool)
    ensures r <==> forall k :: 0 <= k < |ins| ==> ins[k].signature.Some?
  {
    r := true;
    var i := 0;
    while i < |ins|
      invariant 0 <= i <= |ins| && (r <==> forall k :: 0 <= k < i ==> ins[k].signature.Some?)
    {
      if ins[i].signature.None? {
        r := false;
      }
      i := i + 1;
    }
  }

  // ----- serialising -----

  // A buffer to write to, or none when only the length is asked for. What does not fit is not
  // written, but still counts.
  method Put(data: array?<u8>, off: nat, bytes: seq<u8>)
    modifies data
    ensures data != null && off + |bytes| <= data.Length ==>
              data[..] == old(data[..off]) + bytes + old(data[off + |bytes|..])
    ensures data != null && off + |bytes| > data.Length ==> data[..] == old(data[..])
  {
    if data != null && off + |bytes| <= data.Length {
      forall k | 0 <= k < |bytes| {
        data[off + k] := bytes[k];
      }
    }
  }

  // A variable-length integer, which counts only if it fits.
  method PutVarInt(data: array?<u8>, off: nat, i: u64) returns (len: nat)
    modifies data
    ensures len == if data == null || off + VarIntSize(i) <= data.Length then VarIntSize(i) else 0
    ensures data != null && off + VarIntSize(i) <= data.Length ==>
              data[..] == old(data[..off]) + VarInt(i) + old(data[off + VarIntSize(i)..])
    ensures data != null && off + VarIntSize(i) > data.Length ==> data[..] == old(data[..])
  {
    hide ToBytes;
    VarIntBack([], i, []);
    Put(data, off, VarInt(i));
    len := if data == null || off + VarIntSize(i) <= data.Length then VarIntSize(i) else 0;
  }

  // The bytes from the start of the buffer up to a position.
  ghost predicate Holds(data: array?<u8>, bytes: seq<u8>)
    reads data
  {
    data != null ==> |bytes| <= data.Length && data[..|bytes|] == bytes
  }

  // The room there is: none given means only the length is asked for.
  function Capacity(data: array?<u8>): Option<nat> {
    if data == null then None else Some(data.Length)
  }

  predicate Room(capacity: Option<nat>, n: nat) {
    capacity.Some? ==> n <= capacity.value
  }

  // The offset after each part, as it is counted when the part may not fit.
  function VarIntEnd(capacity: Option<nat>, off: nat, i: u64): nat {
    if Room(capacity, off + VarIntSize(i)) then off + VarIntSize(i) else off
  }

  function InputEnd(capacity: Option<nat>, off: nat, i: TxIn): nat
    requires Sized(InputScript(i))
  {
    if Room(capacity, off + |InputBytes(i)|) then off + |InputBytes(i)| else off
  }

  function InputsEnd(capacity: Option<nat>, off: nat, inputs: seq<TxIn>): nat
    requires InputsOk(inputs)
  {
    if inputs == [] then off
    else InputEnd(capacity, InputsEnd(capacity, off, inputs[..|inputs| - 1]), inputs[|inputs| - 1])
  }

  function OutputEnd(capacity: Option<nat>, off: nat, o: TxOut): nat
    requires Sized(o.script)
  {
    VarIntEnd(capacity, off + 8, |o.script|) + |o.script|
  }

  function OutputsOffset(capacity: Option<nat>, off: nat, outputs: seq<TxOut>): nat
    requires OutputsOk(outputs)
  {
    if outputs == [] then off
    else OutputEnd(capacity, OutputsOffset(capacity, off, outputs[..|outputs| - 1]), outputs[|outputs| - 1])
  }

  function OutputsEnd(capacity: Option<nat>, off: nat, outputs: seq<TxOut>): nat
    requires OutputsOk(outputs)
  {
    var end := OutputsOffset(capacity, off, outputs);
    if Room(capacity, end) then end else off
  }

  // What serialising returns.
  function Returned(tx: Tx, capacity: Option<nat>): nat
    requires WellFormed(tx)
  {
    var inputs := InputsEnd(capacity, VarIntEnd(capacity, 4, |tx.inputs|), tx.inputs);
    var end := OutputsEnd(capacity, VarIntEnd(capacity, inputs, |tx.outputs|), tx.outputs) + 4;
    if Room(capacity, end) then end else 0
  }

  lemma {:induction false} InputsEndIs(capacity: Option<nat>, off: nat, inputs: seq<TxIn>)
    requires InputsOk(inputs)
    ensures Room(capacity, off + |InputsBytes(inputs)|) ==>
              InputsEnd(capacity, off, inputs) == off + |InputsBytes(inputs)|
  {
    hide InputBytes;
    if inputs != [] {
      InputsEndIs(capacity, off, inputs[..|inputs| - 1]);
    }
  }

  lemma {:induction false} OutputsOffsetIs(capacity: Option<nat>, off: nat, outputs: seq<TxOut>)
    requires OutputsOk(outputs)
    ensures off <= OutputsOffset(capacity, off, outputs)
    ensures outputs != [] ==> off + 8 <= OutputsOffset(capacity, off, outputs)
    ensures Room(capacity, off + |OutputsBytes(outputs)|) ==>
              OutputsOffset(capacity, off, outputs) == off + |OutputsBytes(outputs)|
  {
    hide VarInt, VarIntSize, ToBytes;
    if outputs != [] {
      OutputsOffsetIs(capacity, off, outputs[..|outputs| - 1]);
      VarIntBack([], |outputs[|outputs| - 1].script|, []);
    }
  }

  // The length of the serialised transaction is returned exactly when there is no buffer or one
  // that can hold it.
  lemma ReturnedIsLength(tx: Tx, capacity: Option<nat>)
    requires WellFormed(tx)
    ensures Returned(tx, capacity) == |TxBytes(tx)| <==> Room(capacity, |TxBytes(tx)|)
  {
    hide VarInt, VarIntSize, ToBytes, InputsBytes, OutputsBytes, InputsEnd, OutputsOffset;
    VarIntBack([], |tx.inputs|, []);
    VarIntBack([], |tx.outputs|, []);
    var off := 4 + VarIntSize(|tx.inputs|);
    InputsEndIs(capacity, off, tx.inputs);
    OutputsOffsetIs(capacity, off + |InputsBytes(tx.inputs)| + VarIntSize(|tx.outputs|), tx.outputs);
  }

  // A buffer that is too small is not always reported by 0: one of ten bytes gets both counts and
  // the lock time of an ordinary transaction, and ten is returned.
  lemma ShortBufferUnnoticed(tx: Tx)
    requires WellFormed(tx) && 0 < |tx.inputs| < 0xfd && 0 < |tx.outputs| < 0xfd
    ensures Returned(tx, Some(10)) == 10 < |TxBytes(tx)|
  {
    hide VarInt, ToBytes, InputsBytes, OutputsBytes, InputsEnd, OutputsOffset;
    VarIntBack([], |tx.inputs|, []);
    VarIntBack([], |tx.outputs|, []);
    InputsSkipped(5, tx.inputs);
    OutputsOffsetIs(Some(10), 6, tx.outputs);
  }

  lemma {:induction false} InputsSkipped(off: nat, inputs: seq<TxIn>)
    requires InputsOk(inputs)
    ensures InputsEnd(Some(10), off, inputs) == off
    ensures inputs != [] ==> |InputsBytes(inputs)| > 10
  {
    hide VarInt, ToBytes;
    if inputs != [] {
      InputsSkipped(off, inputs[..|inputs| - 1]);
    }
  }

  method Append(data: array?<u8>, off: nat, bytes: seq<u8>, ghost done: seq<u8>) returns (next: nat)
    modifies data
    ensures next == off + |bytes|
    ensures off == |done| && old(Holds(data, done)) && Room(Capacity(data), next) ==> Holds(data, done + bytes)
  {
    Put(data, off, bytes);
    next := off + |bytes|;
  }

  method AppendVarInt(data: array?<u8>, off: nat, i: u64, ghost done: seq<u8>) returns (next: nat)
    modifies data
    ensures next == VarIntEnd(Capacity(data), off, i)
    ensures off == |done| && old(Holds(data, done)) && Room(Capacity(data), off + |VarInt(i)|) ==>
              Holds(data, done + VarInt(i)) && next == |done + VarInt(i)|
  {
    hide VarInt, VarIntSize;
    VarIntBack([], i, []);
    var len := PutVarInt(data, off, i);
    next := off + len;
  }

  // The length of a script is left out only where the script cannot fit either.
  lemma ScriptTooLong(capacity: Option<nat>, off: nat, n: u64, rest: nat)
    requires !Room(capacity, off + VarIntSize(n))
    ensures !Room(capacity, off + n + rest + 4)
  {
  }

  // The amount, unless it is zero, and the sequence number.
  method AppendTail(data: array?<u8>, off: nat, amount: u64, sequence: u32, ghost done: seq<u8>) returns (next: nat)
    modifies data
    ensures var tail := (if amount != 0 then ToBytes(amount, 8) else []) + ToBytes(sequence, 4);
            && next == off + |tail|
            && (off == |done| && old(Holds(data, done)) && Room(Capacity(data), next) ==> Holds(data, done + tail))
  {
    hide ToBytes, Holds;
    next := off;
    ghost var d := done;
    if amount != 0 {
      next := Append(data, next, ToBytes(amount, 8), d);
      d := d + ToBytes(amount, 8);
    }
    next := Append(data, next, ToBytes(sequence, 4), d);
    assert d + ToBytes(sequence, 4)
        == done + ((if amount != 0 then ToBytes(amount, 8) else []) + ToBytes(sequence, 4));
  }

  method AppendInput(data: array?<u8>, off: nat, i: TxIn, ghost done: seq<u8>) returns (next: nat)
    requires Sized(InputScript(i)) && |i.txHash| == 32
    modifies data
    ensures next == InputEnd(Capacity(data), off, i)
    ensures off == |done| && old(Holds(data, done)) && Room(Capacity(data), off + |InputBytes(i)|) ==>
              Holds(data, done + InputBytes(i))
  {
    hide VarInt, VarIntSize, ToBytes, Holds;
    var script, amount := InputScript(i), if i.signature.Some? then 0 else i.amount;
    VarIntBack([], |script|, []);
    ghost var d := done;
    next := Append(data, off, i.txHash, d);
    d := d + i.txHash;
    next := Append(data, next, ToBytes(i.index, 4), d);
    d := d + ToBytes(i.index, 4);
    ghost var at := next;
    next := AppendVarInt(data, next, |script|, d);
    d := d + VarInt(|script|);
    next := Append(data, next, script, d);
    d := d + script;
    assert InputAmount(i) == if amount != 0 then ToBytes(amount, 8) else [];
    next := AppendTail(data, next, amount, i.sequence, d);
    d := d + (InputAmount(i) + ToBytes(i.sequence, 4));
    assert d == done + InputBytes(i);
    if !Room(Capacity(data), at + VarIntSize(|script|)) {
      ScriptTooLong(Capacity(data), at, |script|, |InputAmount(i)|);
    }
    if data != null && next > data.Length {
      next := off;
    }
  }

  method AppendOutput(data: array?<u8>, off: nat, o: TxOut, ghost done: seq<u8>) returns (next: nat)
    requires Sized(o.script)
    modifies data
    ensures next == OutputEnd(Capacity(data), off, o)
    ensures off == |done| && old(Holds(data, done)) && Room(Capacity(data), off + |OutputBytes(o)|) ==>
              Holds(data, done + OutputBytes(o)) && next == |done + OutputBytes(o)|
  {
    hide VarInt, VarIntSize, ToBytes;
    VarIntBack([], |o.script|, []);
    ghost var d := done;
    next := Append(data, off, ToBytes(o.amount, 8), d);
    d := d + ToBytes(o.amount, 8);
    next := AppendVarInt(data, next, |o.script|, d);
    d := d + VarInt(|o.script|);
    next := Append(data, next, o.script, d);
    assert d + o.script == done + OutputBytes(o);
  }

  lemma {:induction false} InputsPrefix(inputs: seq<TxIn>, k: nat)
    requires InputsOk(inputs) && k <= |inputs|
    ensures InputsBytes(inputs[..k]) <= InputsBytes(inputs)
    decreases |inputs| - k
  {
    hide InputBytes;
    if k == |inputs| {
      assert inputs[..k] == inputs;
    } else {
      InputsPrefix(inputs, k + 1);
      assert inputs[..k + 1][..k] == inputs[..k];
    }
  }

  lemma {:induction false} OutputsPrefix(outputs: seq<TxOut>, k: nat)
    requires OutputsOk(outputs) && k <= |outputs|
    ensures OutputsBytes(outputs[..k]) <= OutputsBytes(outputs)
    decreases |outputs| - k
  {
    hide OutputBytes;
    if k == |outputs| {
      assert outputs[..k] == outputs;
    } else {
      OutputsPrefix(outputs, k + 1);
      assert outputs[..k + 1][..k] == outputs[..k];
    }
  }

  // What is returned, and that the buffer holds the serialised transaction if it is large enough.
  method Serialize(tx: Tx, data: array?<u8>) returns (len: nat)
    requires WellFormed(tx)
    modifies data
    ensures len == Returned(tx, Capacity(data))
    ensures Room(Capacity(data), |TxBytes(tx)|) ==> len == |TxBytes(tx)| && Holds(data, TxBytes(tx))
  {
    hide VarInt, VarIntSize, ToBytes, InputsBytes, OutputsBytes, InputsEnd, OutputsEnd, VarIntEnd;
    ReturnedIsLength(tx, Capacity(data));
    VarIntBack([], |tx.inputs|, []);
    VarIntBack([], |tx.outputs|, []);
    ghost var fits := Room(Capacity(data), |TxBytes(tx)|);
    ghost var d: seq<u8> := [];
    len := Append(data, 0, ToBytes(tx.version, 4), d);
    d := d + ToBytes(tx.version, 4);
    len := AppendVarInt(data, len, |tx.inputs|, d);
    d := d + VarInt(|tx.inputs|);
    assert fits ==> Holds(data, d) && len == |d|;
    len := AppendInputs(tx.inputs, data, len, d);
    d := d + InputsBytes(tx.inputs);
    assert fits ==> Holds(data, d) && len == |d|;
    len := AppendVarInt(data, len, |tx.outputs|, d);
    d := d + VarInt(|tx.outputs|);
    assert fits ==> Holds(data, d) && len == |d|;
    len := AppendOutputs(tx.outputs, data, len, d);
    d := d + OutputsBytes(tx.outputs);
    len := Append(data, len, ToBytes(tx.lockTime, 4), d);
    assert d + ToBytes(tx.lockTime, 4) == TxBytes(tx);
    if data != null && len > data.Length {
      len := 0;
    }
  }

  method AppendInputs(inputs: seq<TxIn>, data: array?<u8>, off: nat, ghost done: seq<u8>) returns (next: nat)
    requires InputsOk(inputs)
    modifies data
    ensures next == InputsEnd(Capacity(data), off, inputs)
    ensures off == |done| && old(Holds(data, done)) && Room(Capacity(data), off + |InputsBytes(inputs)|) ==>
              Holds(data, done + InputsBytes(inputs)) && next == |done + InputsBytes(inputs)|
  {
    hide InputBytes, Holds;
    ghost var fits := off == |done| && Holds(data, done) && Room(Capacity(data), off + |InputsBytes(inputs)|);
    var i := 0;
    next := off;
    assert done + InputsBytes(inputs[..0]) == done;
    while i < |inputs|
      invariant 0 <= i <= |inputs| && next == InputsEnd(Capacity(data), off, inputs[..i])
      invariant fits ==> next == |done + InputsBytes(inputs[..i])| && Holds(data, done + InputsBytes(inputs[..i]))
    {
      InputsPrefix(inputs, i + 1);
      assert inputs[..i + 1][..i] == inputs[..i];
      ghost var d := done + InputsBytes(inputs[..i]);
      next := AppendInput(data, next, inputs[i], d);
      assert d + InputBytes(inputs[i]) == done + InputsBytes(inputs[..i + 1]);
      i := i + 1;
    }
    assert inputs[..i] == inputs;
  }

  method AppendOutputs(outputs: seq<TxOut>, data: array?<u8>, off: nat, ghost done: seq<u8>) returns (next: nat)
    requires OutputsOk(outputs)
    modifies data
    ensures next == OutputsEnd(Capacity(data), off, outputs)
    ensures off == |done| && old(Holds(data, done)) && Room(Capacity(data), off + |OutputsBytes(outputs)|) ==>
              Holds(data, done + OutputsBytes(outputs)) && next == |done + OutputsBytes(outputs)|
  {
    hide OutputBytes, Holds, OutputEnd;
    ghost var fits := off == |done| && Holds(data, done) && Room(Capacity(data), off + |OutputsBytes(outputs)|);
    var i := 0;
    next := off;
    assert done + OutputsBytes(outputs[..0]) == done;
    while i < |outputs|
      invariant 0 <= i <= |outputs| && next == OutputsOffset(Capacity(data), off, outputs[..i])
      invariant fits ==> next == |done + OutputsBytes(outputs[..i])| && Holds(data, done + OutputsBytes(outputs[..i]))
    {
      OutputsPrefix(outputs, i + 1);
      assert outputs[..i + 1][..i] == outputs[..i];
      ghost var d := done + OutputsBytes(outputs[..i]);
      next := AppendOutput(data, next, outputs[i], d);
      assert d + OutputBytes(outputs[i]) == done + OutputsBytes(outputs[..i + 1]);
      i := i + 1;
    }
    assert outputs[..i] == outputs;
    if data != null && next > data.Length {
      next := off;
    }
  }
}
