/**
 chain/foundry_trace.py, event decoding: an event that a contract emits in canonical ABI form is read
 as it was emitted, argument by argument.
 */
module Events {
  import opened Prelude
  import opened Abi
  import opened Arena

  /** Encodings of a few static arguments are far shorter than any 256-bit offset. */
  lemma {:induction false} StaticSize(types: seq<AbiType>, values: seq<AbiValue>)
    requires HaveTypes(types, values) && |types| <= 8 && forall i :: 0 <= i < |types| ==> !Dynamic(types[i])
    ensures |Encode(types, values)| < WORD_LIMIT
  {
    WordLimit();
    var tails := TailList(types, values);
    ConcatLength(tails, 0);
    ConcatLength(HeadList(types, values), WORD);
    Pow256IsPow2(WORD);
    Pow2Monotone(9, 8 * WORD);
    assert Pow2(9) == 512;
  }

  lemma {:induction false} AssertionAsEmitted(
    cfg: Config, topic: Bytes, id: Bytes, kind: Bytes, target: Bytes, observed: int, expected: int, ok: bool)
    requires |id| == WORD && InSignedRange(observed, 256) && InSignedRange(expected, 256)
    requires |Encode([String, String, Int(256), Int(256), Bool],
                     [Text(kind), Text(target), Num(observed), Num(expected), Flag(ok)])| < WORD_LIMIT
    ensures DecodeAssertion(cfg, [topic, id],
                            Encode([String, String, Int(256), Int(256), Bool],
                                   [Text(kind), Text(target), Num(observed), Num(expected), Flag(ok)]))
            == Ok(AssertionChecked(Label(id), cfg.utf8(kind), cfg.utf8(target), observed, expected, ok))
  {
    hide Encode, Decode, Label, InSignedRange, Pow256;
    var types := [String, String, Int(256), Int(256), Bool];
    var values := [Text(kind), Text(target), Num(observed), Num(expected), Flag(ok)];
    DecodeInvertsEncode(types, values, []);
    assert Encode(types, values) + [] == Encode(types, values);
  }

  lemma {:induction false} ControlAsEmitted(topic: Bytes, id: Bytes, changed: bool)
    requires |id| == WORD
    ensures DecodeControl([topic, id], Encode([Bool], [Flag(changed)])) == Ok(ControlObserved(Label(id), changed))
  {
    hide Encode, Decode, Label, Pow256;
    StaticSize([Bool], [Flag(changed)]);
    DecodeInvertsEncode([Bool], [Flag(changed)], []);
    assert Encode([Bool], [Flag(changed)]) + [] == Encode([Bool], [Flag(changed)]);
  }

  lemma {:induction false} ContextAsEmitted(topic: Bytes, id: Bytes, actor: Bytes, token: Bytes)
    requires |id| == WORD && |actor| == 20 && |token| == 20
    ensures DecodeContext([topic, id], Encode([Address, Address], [Hex(actor), Hex(token)]))
            == Ok(AssertionContext(Label(id), actor, token))
  {
    hide Encode, Decode, Label, Pow256;
    StaticSize([Address, Address], [Hex(actor), Hex(token)]);
    DecodeInvertsEncode([Address, Address], [Hex(actor), Hex(token)], []);
    assert Encode([Address, Address], [Hex(actor), Hex(token)]) + [] == Encode([Address, Address], [Hex(actor), Hex(token)]);
  }

  const ECONOMIC_TYPES: seq<AbiType> :=
    [Address, Address, Uint(256), Uint(256), Uint(256), Uint(256), Uint(256), Int(256)]

  /** The arguments of an EconomicSnapshot, in the order of its signature. */
  function EconomicValues(e: EventBody): seq<AbiValue>
    requires e.EconomicSnapshot?
  {
    [Hex(e.actor), Hex(e.token), Num(e.nativeBefore), Num(e.nativeAfter), Num(e.tokenBefore), Num(e.tokenAfter),
     Num(e.capital), Num(e.protocolDelta)]
  }

  lemma {:induction false} EconomicAsEmitted(topic: Bytes, id: Bytes, e: EventBody)
    requires |id| == WORD && e.EconomicSnapshot? && HaveTypes(ECONOMIC_TYPES, EconomicValues(e)) && e.id == Label(id)
    ensures DecodeEconomic([topic, id], Encode(ECONOMIC_TYPES, EconomicValues(e))) == Ok(e)
  {
    hide Encode, Decode, Label, Pow256, HaveTypes;
    var values := EconomicValues(e);
    StaticSize(ECONOMIC_TYPES, values);
    DecodeInvertsEncode(ECONOMIC_TYPES, values, []);
    assert Encode(ECONOMIC_TYPES, values) + [] == Encode(ECONOMIC_TYPES, values);
  }

  /** A Transfer log with two indexed addresses and a 256-bit amount is read back as that transfer. */
  lemma {:induction false} TransferAsEmitted(topic: Bytes, t: Transfer)
    requires |t.from| == 20 && |t.to| == 20 && t.amount < WORD_LIMIT
    ensures DecodeTransfer(t.token, [topic, Zeros(12) + t.from, Zeros(12) + t.to], ToBytes(t.amount, WORD)) == Some(t)
  {
    hide Pow256, BigEndian, ToBytes;
    var topics := [topic, Zeros(12) + t.from, Zeros(12) + t.to];
    WordLimit();
    BigEndianOfToBytes(t.amount, WORD);
    assert topics[1][..12] == Zeros(12) && topics[2][..12] == Zeros(12);
    assert topics[1][12..] == t.from && topics[2][12..] == t.to;
  }

  // ---------------------------------------------------------------- identifiers

  predicate Printable(s: Bytes) {
    s != [] && forall b :: b in s ==> 0x20 <= b <= 0x7E
  }

  lemma {:induction false} StrippedIsPrefix(word: Bytes)
    ensures var s := RightStrip(word);
            |s| <= |word| && s == word[..|s|] && word == s + Zeros(|word| - |s|) && (s != [] ==> s[|s| - 1] != 0)
  {
    if word != [] && word[|word| - 1] == 0 {
      var init := word[..|word| - 1];
      StrippedIsPrefix(init);
      var s := RightStrip(init);
      assert word == init + [0];
      assert Zeros(|init| - |s|) + [0] == Zeros(|word| - |s|);
    } else {
      assert word == word + Zeros(0);
    }
  }

  lemma {:induction false} HexDistinguishes(a: Bytes, b: Bytes)
    requires HexText(a) == HexText(b)
    ensures a == b
  {
    if a != [] && b != [] {
      HexDigitsDiffer();
      var s, t := HexText(a), HexText(b);
      assert s[2..] == HexText(a[1..]) && t[2..] == HexText(b[1..]);
      assert s[0] == HEX_DIGITS[a[0] / 16] && s[1] == HEX_DIGITS[a[0] % 16];
      assert t[0] == HEX_DIGITS[b[0] / 16] && t[1] == HEX_DIGITS[b[0] % 16];
      HexDistinguishes(a[1..], b[1..]);
    }
  }

  lemma {:induction false} HexDigitsDiffer()
    ensures forall i, j :: 0 <= i < 16 && 0 <= j < 16 && HEX_DIGITS[i] == HEX_DIGITS[j] ==> i == j
  {
  }

  lemma {:induction false} HexLength(b: Bytes)
    ensures |HexText(b)| == 2 * |b|
  {
    if b != [] {
      HexLength(b[1..]);
    }
  }

  /** A word that holds a printable text before its zero bytes is labelled with that text. */
  lemma {:induction false} TextIsLabel(word: Bytes, text: Bytes)
    requires Printable(text) && |text| <= |word| && word == text + Zeros(|word| - |text|)
    ensures |Label(word)| == |text| && forall i :: 0 <= i < |text| ==> Label(word)[i] as int == text[i]
  {
    StrippedIsPrefix(word);
    var s := RightStrip(word);
    assert forall i :: 0 <= i < |text| ==> word[i] == text[i];
    assert forall i :: |text| <= i < |word| ==> word[i] == 0;
    assert text[|text| - 1] in text;
    assert s == text;
  }

  /** Any other word is labelled with its bytes in hex. */
  lemma {:induction false} HexIsLabel(word: Bytes)
    ensures (exists text :: Printable(text) && |text| <= |word| && word == text + Zeros(|word| - |text|)) || Label(word) == "0x" + HexText(word)
  {
    hide HexText;
    StrippedIsPrefix(word);
  }

  /** No two identifiers share a label. */
  lemma {:induction false} LabelsDiffer(a: Bytes, b: Bytes)
    requires |a| == WORD && |b| == WORD && Label(a) == Label(b)
    ensures a == b
  {
    StrippedIsPrefix(a);
    StrippedIsPrefix(b);
    HexLength(a);
    HexLength(b);
    var s, t := RightStrip(a), RightStrip(b);
    hide HexText, RightStrip;
    if Printable(s) && Printable(t) {
      forall i | 0 <= i < |s|
        ensures s[i] == t[i]
      {
        assert Label(a)[i] == s[i] as char && Label(b)[i] == t[i] as char;
      }
      assert s == t;
    } else if !Printable(s) && !Printable(t) {
      assert Label(a)[2..] == HexText(a) && Label(b)[2..] == HexText(b);
      HexDistinguishes(a, b);
    }
  }
}
