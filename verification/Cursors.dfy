/** The texts of page cursors (packages/core/src/store.ts): decimal row numbers, and base64url
    (section 5 of RFC 4648) of a message's creation time and identifier. Texts are sequences of
    character codes. */
module Cursors {
  import opened Wrappers
  import opened Paging

  type Text = seq<nat>

  // ----- decimal -----

  const MAX_SAFE_INTEGER: nat := 0x1F_FFFF_FFFF_FFFF

  function Decimal(n: nat): Text {
    if n < 10 then [48 + n] else Decimal(n / 10) + [48 + n % 10]
  }

  predicate IsDigit(c: nat) { 48 <= c <= 57 }

  predicate AllDigits(text: Text) { forall i :: 0 <= i < |text| ==> IsDigit(text[i]) }

  function ParseDecimal(text: Text): nat
    requires AllDigits(text)
  {
    if text == [] then 0 else 10 * ParseDecimal(text[..|text| - 1]) + (text[|text| - 1] - 48)
  }

  /** rowPageAfter: 1 to 16 digits without a leading zero, of a safe integer. */
  function RowPageAfter(cursor: Option<Text>): Option<nat> {
    if cursor.None? then Some(0)
    else
      var text := cursor.value;
      if text == [] || |text| > 16 || text[0] == 48 || !AllDigits(text) then None
      else if ParseDecimal(text) > MAX_SAFE_INTEGER then None
      else Some(ParseDecimal(text))
  }

  lemma {:induction false} DecimalIsDigits(n: nat)
    ensures Decimal(n) != [] && AllDigits(Decimal(n)) && (n > 0 ==> Decimal(n)[0] != 48)
    ensures ParseDecimal(Decimal(n)) == n
  {
    if n < 10 {
      assert Decimal(n)[..0] == [];
    } else {
      DecimalIsDigits(n / 10);
      assert Decimal(n)[..|Decimal(n)| - 1] == Decimal(n / 10);
    }
  }

  function Pow10(k: nat): nat { if k == 0 then 1 else 10 * Pow10(k - 1) }

  lemma {:induction false} DecimalLength(n: nat, k: nat)
    requires k > 0 && n < Pow10(k)
    ensures |Decimal(n)| <= k
  {
    if n >= 10 { DecimalLength(n / 10, k - 1); }
  }

  lemma SafeIntegersAreShort(n: nat)
    requires n <= MAX_SAFE_INTEGER
    ensures |Decimal(n)| <= 16
  {
    assert Pow10(4) == 10_000;
    assert Pow10(8) == 100_000_000;
    assert Pow10(12) == 1_000_000_000_000;
    assert Pow10(16) == 10_000_000_000_000_000;
    DecimalLength(n, 16);
  }

  lemma {:induction false} DigitsAreDecimal(text: Text)
    requires text != [] && text[0] != 48 && AllDigits(text)
    ensures ParseDecimal(text) > 0 && Decimal(ParseDecimal(text)) == text
  {
    var init, last := text[..|text| - 1], text[|text| - 1];
    assert text == init + [last] && IsDigit(last);
    if init == [] {
      assert ParseDecimal(init) == 0;
      assert text == [last] == Decimal(last - 48);
    } else {
      assert AllDigits(init);
      DigitsAreDecimal(init);
      var n := ParseDecimal(init);
      assert (10 * n + (last - 48)) / 10 == n && (10 * n + (last - 48)) % 10 == last - 48;
    }
  }

  /** Row cursors undo themselves: a row number's text reads as that number, and a text is
      accepted only if it is the text of the positive row number it reads as. */
  lemma RowCursorsRoundTrip(n: nat, text: Text)
    ensures RowPageAfter(None) == Some(0)
    ensures 0 < n <= MAX_SAFE_INTEGER ==> RowPageAfter(Some(Decimal(n))) == Some(n)
    ensures RowPageAfter(Some(text)).Some? ==>
              RowPageAfter(Some(text)).value > 0 && Decimal(RowPageAfter(Some(text)).value) == text
  {
    if 0 < n <= MAX_SAFE_INTEGER {
      DecimalIsDigits(n);
      SafeIntegersAreShort(n);
    }
    if RowPageAfter(Some(text)).Some? { DigitsAreDecimal(text); }
  }

  // ----- base64url -----

  predicate IsBytes(bytes: Text) { forall i :: 0 <= i < |bytes| ==> bytes[i] < 256 }

  /** The 64 characters A-Z, a-z, 0-9, - and _. */
  function Symbol(sextet: nat): nat
    requires sextet < 64
  {
    if sextet < 26 then 65 + sextet
    else if sextet < 52 then 97 + (sextet - 26)
    else if sextet < 62 then 48 + (sextet - 52)
    else if sextet == 62 then 45
    else 95
  }

  predicate IsSymbol(c: nat) { 65 <= c <= 90 || 97 <= c <= 122 || IsDigit(c) || c == 45 || c == 95 }

  function Sextet(c: nat): (r: nat)
    requires IsSymbol(c)
    ensures r < 64 && Symbol(r) == c
  {
    if 65 <= c <= 90 then c - 65
    else if 97 <= c <= 122 then c - 97 + 26
    else if IsDigit(c) then c - 48 + 52
    else if c == 45 then 62
    else 63
  }

  lemma SymbolsRoundTrip(sextet: nat)
    requires sextet < 64
    ensures IsSymbol(Symbol(sextet)) && Sextet(Symbol(sextet)) == sextet
  {
  }

  function Encode(bytes: Text): Text
    requires IsBytes(bytes)
  {
    if bytes == [] then []
    else if |bytes| == 1 then [Symbol(bytes[0] / 4), Symbol(bytes[0] % 4 * 16)]
    else if |bytes| == 2 then
      [Symbol(bytes[0] / 4), Symbol(bytes[0] % 4 * 16 + bytes[1] / 16), Symbol(bytes[1] % 16 * 4)]
    else
      [Symbol(bytes[0] / 4), Symbol(bytes[0] % 4 * 16 + bytes[1] / 16), Symbol(bytes[1] % 16 * 4 + bytes[2] / 64),
       Symbol(bytes[2] % 64)]
      + Encode(bytes[3..])
  }

  predicate IsSymbols(text: Text) { forall i :: 0 <= i < |text| ==> IsSymbol(text[i]) }

  /** Decoding takes what it can: left-over bits, and a left-over character, are dropped. */
  function Decode(text: Text): (r: Text)
    requires IsSymbols(text)
    ensures IsBytes(r)
  {
    if |text| < 2 then []
    else
      var a, b := Sextet(text[0]), Sextet(text[1]);
      if |text| == 2 then [a * 4 + b / 16]
      else
        var c := Sextet(text[2]);
        if |text| == 3 then [a * 4 + b / 16, b % 16 * 16 + c / 4]
        else [a * 4 + b / 16, b % 16 * 16 + c / 4, c % 4 * 64 + Sextet(text[3])] + Decode(text[4..])
  }

  lemma {:induction false} EncodeRoundTrips(bytes: Text)
    requires IsBytes(bytes)
    ensures IsSymbols(Encode(bytes)) && Decode(Encode(bytes)) == bytes
    ensures 3 * |Encode(bytes)| <= 4 * |bytes| + 2 && (bytes != [] ==> Encode(bytes) != [])
  {
    if |bytes| >= 3 {
      EncodeRoundTrips(bytes[3..]);
      GroupThenRest(bytes);
    } else {
      LastGroupRoundTrips(bytes);
    }
  }

  lemma LastGroupRoundTrips(bytes: Text)
    requires IsBytes(bytes) && |bytes| < 3
    ensures IsSymbols(Encode(bytes)) && Decode(Encode(bytes)) == bytes
  {
    hide Encode, Decode, Symbol, Sextet, IsSymbol;
    if bytes == [] { EmptyRoundTrips(); }
    if |bytes| == 2 {
      PairRoundTrips(bytes[0], bytes[1]);
      assert bytes == [bytes[0], bytes[1]];
    } else if |bytes| == 1 {
      SingleRoundTrips(bytes[0]);
      assert bytes == [bytes[0]];
    }
  }

  lemma EmptyRoundTrips()
    ensures Encode([]) == [] && Decode([]) == []
  {
  }

  lemma PairRoundTrips(x: nat, y: nat)
    requires x < 256 && y < 256
    ensures IsSymbols(Encode([x, y])) && Decode(Encode([x, y])) == [x, y]
  {
    hide Symbol, Sextet, IsSymbol;
    var a, b, c := x / 4, x % 4 * 16 + y / 16, y % 16 * 4;
    GroupRoundTrips(x, y, 0);
    assert Encode([x, y]) == [Symbol(a), Symbol(b), Symbol(c)];
    TripleDecodes(Symbol(a), Symbol(b), Symbol(c));
  }

  lemma TripleDecodes(s: nat, t: nat, u: nat)
    requires IsSymbol(s) && IsSymbol(t) && IsSymbol(u)
    ensures IsSymbols([s, t, u])
            && Decode([s, t, u]) == [Sextet(s) * 4 + Sextet(t) / 16, Sextet(t) % 16 * 16 + Sextet(u) / 4]
  {
    hide Symbol, Sextet, IsSymbol;
  }

  lemma SingleRoundTrips(x: nat)
    requires x < 256
    ensures IsSymbols(Encode([x])) && Decode(Encode([x])) == [x]
  {
    hide Symbol, Sextet, IsSymbol;
    var a, b := x / 4, x % 4 * 16;
    GroupRoundTrips(x, 0, 0);
    assert Encode([x]) == [Symbol(a), Symbol(b)];
    assert Decode([Symbol(a), Symbol(b)]) == [a * 4 + b / 16];
  }

  lemma GroupThenRest(bytes: Text)
    requires IsBytes(bytes) && |bytes| >= 3
    requires IsSymbols(Encode(bytes[3..])) && Decode(Encode(bytes[3..])) == bytes[3..]
    ensures IsSymbols(Encode(bytes)) && Decode(Encode(bytes)) == bytes && |Encode(bytes)| == 4 + |Encode(bytes[3..])|
  {
    hide Symbol, Sextet, IsSymbol;
    var x, y, z := bytes[0], bytes[1], bytes[2];
    GroupRoundTrips(x, y, z);
    var head, rest :=
      [Symbol(x / 4), Symbol(x % 4 * 16 + y / 16), Symbol(y % 16 * 4 + z / 64), Symbol(z % 64)], Encode(bytes[3..]);
    assert Encode(bytes) == head + rest;
    GroupDecodes(head, rest);
    assert bytes == [x, y, z] + bytes[3..];
  }

  lemma GroupDecodes(head: Text, rest: Text)
    requires |head| == 4 && IsSymbols(head) && IsSymbols(rest)
    ensures IsSymbols(head + rest)
    ensures var a, b, c, d := Sextet(head[0]), Sextet(head[1]), Sextet(head[2]), Sextet(head[3]);
            Decode(head + rest) == [a * 4 + b / 16, b % 16 * 16 + c / 4, c % 4 * 64 + d] + Decode(rest)
  {
    hide Symbol, Sextet, IsSymbol;
    assert (head + rest)[4..] == rest;
  }

  lemma GroupRoundTrips(x: nat, y: nat, z: nat)
    requires x < 256 && y < 256 && z < 256
    ensures var a, b, c, d := x / 4, x % 4 * 16 + y / 16, y % 16 * 4 + z / 64, z % 64;
            && a < 64 && b < 64 && c < 64 && d < 64
            && IsSymbol(Symbol(a)) && IsSymbol(Symbol(b)) && IsSymbol(Symbol(c)) && IsSymbol(Symbol(d))
            && Sextet(Symbol(a)) == a && Sextet(Symbol(b)) == b && Sextet(Symbol(c)) == c && Sextet(Symbol(d)) == d
            && a * 4 + b / 16 == x && b % 16 * 16 + c / 4 == y && c % 4 * 64 + d == z
  {
    SymbolsRoundTrip(x / 4);
    SymbolsRoundTrip(x % 4 * 16 + y / 16);
    SymbolsRoundTrip(y % 16 * 4 + z / 64);
    SymbolsRoundTrip(z % 64);
  }

  // ----- message cursors -----

  /** What the store checks of a creation time: that its text is that of an instant. */
  type Instants = Text -> bool

  /** No zero and no byte over 127: the text is its own UTF-8 encoding. */
  predicate Plain(text: Text) { forall i :: 0 <= i < |text| ==> 0 < text[i] < 128 }

  ghost predicate PlainInstants(instants: Instants) {
    forall text: Text :: instants(text) ==> Plain(text) && text != [] && |text| <= 27
  }

  predicate IsHex(c: nat) { IsDigit(c) || 97 <= c <= 102 }

  /** `msg_` or `opm_` and 32 hexadecimal digits. */
  predicate IsMessageId(id: Text) {
    && |id| == 36 && (id[..4] == [109, 115, 103, 95] || id[..4] == [111, 112, 109, 95])
    && forall i :: 4 <= i < 36 ==> IsHex(id[i])
  }

  predicate Spells(text: Text, word: string) {
    |text| == |word| && forall i :: 0 <= i < |text| ==> text[i] == word[i] as nat
  }

  lemma IdsAreNamed(id: Text)
    ensures IsMessageId(id) <==>
            && |id| == 36 && (Spells(id[..4], "msg_") || Spells(id[..4], "opm_"))
            && forall i :: 4 <= i < 36 ==>
                 '0' as nat <= id[i] <= '9' as nat || 'a' as nat <= id[i] <= 'f' as nat
  {
    if |id| == 36 {
      assert Spells(id[..4], "msg_") <==> id[..4] == [109, 115, 103, 95];
      assert Spells(id[..4], "opm_") <==> id[..4] == [111, 112, 109, 95];
    }
  }

  /** The key messages are paged by, and what the cursor encodes. */
  function MessageKey(createdAt: Text, id: Text): Text { createdAt + [0] + id }

  function MessagePageCursor(createdAt: Text, id: Text): Text
    requires IsBytes(MessageKey(createdAt, id))
  {
    Encode(MessageKey(createdAt, id))
  }

  /** The position of the first zero, or the length. */
  function ZeroAt(text: Text): (r: nat)
    ensures r <= |text| && (r < |text| ==> text[r] == 0) && forall i :: 0 <= i < r ==> text[i] != 0
  {
    if text == [] || text[0] == 0 then 0 else 1 + ZeroAt(text[1..])
  }

  datatype MessagePosition = MessagePosition(createdAt: Text, id: Text)

  function MessagePageAfter(cursor: Option<Text>, instants: Instants): Option<MessagePosition> {
    if cursor.None? then Some(MessagePosition([], []))
    else
      var text := cursor.value;
      if text == [] || |text| > 256 || !IsSymbols(text) then None
      else
        var decoded := Decode(text);
        if Encode(decoded) != text then None
        else
          var separator := ZeroAt(decoded);
          if separator < 1 || separator == |decoded|
             || ZeroAt(decoded[separator + 1..]) < |decoded| - separator - 1 then None
          else
            var createdAt, id := decoded[..separator], decoded[separator + 1..];
            if !instants(createdAt) || !IsMessageId(id) then None else Some(MessagePosition(createdAt, id))
  }

  lemma IdsArePlain(id: Text)
    requires IsMessageId(id)
    ensures Plain(id)
  {
    forall i | 0 <= i < 36 ensures 0 < id[i] < 128 {
      if i < 4 { assert id[i] == id[..4][i]; } else { assert IsHex(id[i]); }
    }
  }

  lemma {:induction false} ZeroAfter(text: Text, rest: Text)
    requires Plain(text)
    ensures ZeroAt(text + [0] + rest) == |text| && ZeroAt(text) == |text|
  {
    var whole := text + [0] + rest;
    if text != [] {
      ZeroAfter(text[1..], rest);
      assert whole[1..] == text[1..] + [0] + rest && whole[0] == text[0];
    }
  }

  lemma PlainIsBytes(text: Text, rest: Text)
    requires Plain(text) && Plain(rest)
    ensures IsBytes(text + [0] + rest)
  {
    forall i | 0 <= i < |text + [0] + rest| ensures (text + [0] + rest)[i] < 256 {
      if i < |text| { assert text[i] < 128; } else if i > |text| { assert rest[i - |text| - 1] < 128; }
    }
  }

  lemma KeySplits(createdAt: Text, id: Text)
    requires Plain(createdAt) && Plain(id)
    ensures var key := MessageKey(createdAt, id);
            && IsBytes(key) && ZeroAt(key) == |createdAt| && key[..|createdAt|] == createdAt
            && key[|createdAt| + 1..] == id
            && ZeroAt(id) == |id|
  {
    hide Plain, IsBytes, ZeroAt;
    PlainIsBytes(createdAt, id);
    ZeroAfter(createdAt, id);
    ZeroAfter(id, []);
  }

  /** Message cursors undo themselves: the cursor of a position reads as that position, and a
      text is accepted only if it is the cursor of the position it reads as. */
  lemma MessageCursorsRoundTrip(createdAt: Text, id: Text, text: Text, instants: Instants)
    requires PlainInstants(instants)
    ensures instants(createdAt) && IsMessageId(id) ==>
              && IsBytes(MessageKey(createdAt, id))
              && MessagePageAfter(Some(MessagePageCursor(createdAt, id)), instants) ==
              Some(MessagePosition(createdAt, id))
    ensures MessagePageAfter(Some(text), instants).Some? ==>
              var read := MessagePageAfter(Some(text), instants).value;
              && instants(read.createdAt) && IsMessageId(read.id)
              && IsBytes(MessageKey(read.createdAt, read.id)) && MessagePageCursor(read.createdAt, read.id) == text
    ensures MessagePageAfter(None, instants) == Some(MessagePosition([], []))
  {
    hide Encode, Decode, IsMessageId, IsSymbols;
    if instants(createdAt) && IsMessageId(id) {
      IdsArePlain(id);
      IdsAre36(id);
      KeySplits(createdAt, id);
      EncodeRoundTrips(MessageKey(createdAt, id));
    }
    if MessagePageAfter(Some(text), instants).Some? {
      var decoded := Decode(text);
      var separator := ZeroAt(decoded);
      assert MessageKey(decoded[..separator], decoded[separator + 1..]) == decoded;
    }
  }

  lemma IdsAre36(id: Text)
    requires IsMessageId(id)
    ensures |id| == 36
  {
  }

  /** The cursor's key orders messages as the store does: by creation time, then by identifier. */
  lemma {:induction false} KeysOrderByTimeThenId(time: Text, id: Text, time': Text, id': Text)
    requires Plain(time) && Plain(time')
    ensures Before(MessageKey(time, id), MessageKey(time', id')) <==>
            Before(time, time') || (time == time' && Before(id, id'))
  {
    var key, key' := MessageKey(time, id), MessageKey(time', id');
    if time == [] || time' == [] {
      assert time == [] ==> key[0] == 0 && key[1..] == id;
      assert time' == [] ==> key'[0] == 0 && key'[1..] == id';
    } else {
      KeysOrderByTimeThenId(time[1..], id, time'[1..], id');
      assert key[1..] == MessageKey(time[1..], id) && key'[1..] == MessageKey(time'[1..], id');
      assert time == [time[0]] + time[1..] && time' == [time'[0]] + time'[1..];
    }
  }
}
