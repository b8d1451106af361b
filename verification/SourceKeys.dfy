/** Source identities and the keys scoped to them (source_identity.rs). */
module SourceKeys {
  import opened Basics
  import opened Text
  import opened Splitting

  const ENTROPY_BYTES := 16
  const ID_CHARS := 32
  const MAX_KEY_CHARS := 1024
  const SEPARATOR := ':'

  // ---- Source identities ----

  datatype IdError = Length(found: nat) | Charset

  predicate IsHexDigit(c: char) {
    IsDigit(c) || 'a' <= c <= 'f'
  }

  const DIGITS := "0123456789abcdef"

  function HexDigit(d: int): (c: char)
    requires 0 <= d < 16
    ensures IsHexDigit(c)
  {
    DIGITS[d]
  }

  function HexValue(c: char): (d: int)
    requires IsHexDigit(c)
    ensures 0 <= d < 16
  {
    if IsDigit(c) then c as int - '0' as int else c as int - 'a' as int + 10
  }

  function HexPair(byte: Byte): (s: string)
    ensures |s| == 2 && IsHexDigit(s[0]) && IsHexDigit(s[1])
  {
    [HexDigit(byte / 16), HexDigit(byte % 16)]
  }

  function PairByte(high: char, low: char): Byte
    requires IsHexDigit(high) && IsHexDigit(low)
  {
    16 * HexValue(high) + HexValue(low)
  }

  lemma DigitsInOrder()
    ensures DIGITS[..10] == "0123456789" && DIGITS[10..] == "abcdef"
  {
  }

  lemma HexDigitRoundTrip(d: int, c: char)
    requires 0 <= d < 16 && IsHexDigit(c)
    ensures HexValue(HexDigit(d)) == d
    ensures HexDigit(HexValue(c)) == c
  {
    DigitsInOrder();
    var v := HexValue(c);
    assert v < 10 ==> c == '0' + v as char;
    assert v >= 10 ==> c == 'a' + (v - 10) as char;
  }

  lemma PairRoundTrip(byte: Byte, high: char, low: char)
    requires IsHexDigit(high) && IsHexDigit(low)
    ensures PairByte(HexPair(byte)[0], HexPair(byte)[1]) == byte
    ensures HexPair(PairByte(high, low)) == [high, low]
  {
    hide HexDigit, HexValue;
    HexDigitRoundTrip(byte / 16, high);
    HexDigitRoundTrip(byte % 16, low);
  }

  predicate AllHex(s: string) {
    forall i :: 0 <= i < |s| ==> IsHexDigit(s[i])
  }

  function Hex(bytes: Bytes): (s: string)
    ensures |s| == 2 * |bytes| && AllHex(s)
  {
    if bytes == [] then []
    else
      var last := bytes[|bytes| - 1];
      Hex(bytes[..|bytes| - 1]) + HexPair(last)
  }

  function Unhex(s: string): (bytes: Bytes)
    requires |s| % 2 == 0 && AllHex(s)
    ensures |bytes| == |s| / 2
  {
    if s == [] then []
    else Unhex(s[..|s| - 2]) + [PairByte(s[|s| - 2], s[|s| - 1])]
  }

  lemma HexAppend(bytes: Bytes, last: Byte)
    ensures Hex(bytes + [last]) == Hex(bytes) + HexPair(last)
  {
    hide HexPair;
    assert (bytes + [last])[..|bytes|] == bytes;
  }

  lemma EmptyHex()
    ensures Hex([]) == [] && Unhex([]) == []
  {
  }

  lemma IsDigitOrLetter()
    ensures IsHexDigit('a')
  {
  }

  lemma UnhexAppend(s: string, high: char, low: char)
    requires |s| % 2 == 0 && AllHex(s) && IsHexDigit(high) && IsHexDigit(low)
    ensures AllHex(s + [high, low])
    ensures Unhex(s + [high, low]) == Unhex(s) + [PairByte(high, low)]
  {
    hide PairByte, IsHexDigit;
    assert (s + [high, low])[..|s|] == s;
  }

  lemma {:induction false} UnhexOfHex(bytes: Bytes)
    ensures Unhex(Hex(bytes)) == bytes
  {
    hide Hex, Unhex, HexPair, PairByte, IsHexDigit;
    if bytes == [] {
      EmptyHex();
    } else {
      var front, last := bytes[..|bytes| - 1], bytes[|bytes| - 1];
      UnhexOfHex(front);
      PairRoundTrip(last, 'a', 'a') by { IsDigitOrLetter(); }
      var pair := HexPair(last);
      assert bytes == front + [last] && pair == [pair[0], pair[1]];
      HexAppend(front, last);
      UnhexAppend(Hex(front), pair[0], pair[1]);
    }
  }

  lemma {:induction false} HexOfUnhex(s: string)
    requires |s| % 2 == 0 && AllHex(s)
    ensures Hex(Unhex(s)) == s
  {
    hide Hex, Unhex, HexPair, PairByte, IsHexDigit;
    if s == [] {
      EmptyHex();
    } else {
      var front, high, low := s[..|s| - 2], s[|s| - 2], s[|s| - 1];
      assert s == front + [high, low];
      HexOfUnhex(front);
      PairRoundTrip(0, high, low);
      UnhexAppend(front, high, low);
      HexAppend(Unhex(front), PairByte(high, low));
    }
  }

  /** Each byte is two characters, its high half first, lowercase. */
  lemma {:induction false} HexAt(bytes: Bytes, i: nat)
    requires i < |bytes|
    ensures Hex(bytes)[2 * i] == "0123456789abcdef"[bytes[i] / 16]
    ensures Hex(bytes)[2 * i + 1] == "0123456789abcdef"[bytes[i] % 16]
  {
    if i < |bytes| - 1 {
      HexAt(bytes[..|bytes| - 1], i);
    }
  }

  predicate IsSourceId(s: string) {
    |s| == ID_CHARS && AllHex(s)
  }

  /** Identities name the entropy they were minted from. */
  method Mint(entropy: Bytes) returns (value: string)
    requires |entropy| == ENTROPY_BYTES
    ensures IsSourceId(value) && Unhex(value) == entropy
  {
    value := [];
    for n := 0 to |entropy|
      invariant value == Hex(entropy[..n])
    {
      assert entropy[..n + 1][..n] == entropy[..n];
      var byte := entropy[n];
      value := value + [HexDigit(byte / 16)];
      value := value + [HexDigit(byte % 16)];
    }
    assert entropy[..|entropy|] == entropy;
    UnhexOfHex(entropy);
  }

  function ParseId(value: string): Result<string, IdError> {
    if |value| != ID_CHARS then Err(Length(|value|))
    else if !AllHex(value) then Err(Charset)
    else Ok(value)
  }

  /** Parsing accepts what minting can produce, and nothing else. */
  lemma ParsedIdsAreMinted(value: string)
    ensures ParseId(value) == Ok(value) <==> exists entropy: Bytes ::
      |entropy| == ENTROPY_BYTES && Hex(entropy) == value
    ensures ParseId(value).Ok? ==> ParseId(value).value == value
  {
    if IsSourceId(value) {
      HexOfUnhex(value);
    }
  }

  // ---- Scoped keys ----

  datatype Scope = Note | File | Asset | ReadingReference
  datatype TextError = Empty | TooLong(limit: nat) | BadCharset
  datatype KeyError = BadKey(text: TextError) | BadSource(id: IdError) | Malformed | UnknownScope

  datatype ScopedKey = ScopedKey(source: string, scope: Scope, key: string)
  {
    predicate Valid() {
      IsSourceId(source) && IsPrintable(key) && 0 < |key| <= MAX_KEY_CHARS
    }
  }

  predicate IsControl(c: char) {
    c as int < 0x20 || 0x7F <= c as int <= 0x9F
  }

  /** No control character, no surrounding whitespace, and no whitespace but
      spaces. */
  predicate IsPrintable(s: string) {
    && (forall i :: 0 <= i < |s| ==> !IsControl(s[i]))
    && Trim(s) == s
    && (forall i :: 0 <= i < |s| ==> IsWhitespace(s[i]) ==> s[i] == ' ')
  }

  function ParseText(value: string, limit: nat): Result<string, TextError> {
    if value == [] then Err(Empty)
    else if |value| > limit then Err(TooLong(limit))
    else if !IsPrintable(value) then Err(BadCharset)
    else Ok(value)
  }

  /** Which texts can be keys, and the first ground the others are refused on. */
  lemma KeyTexts(value: string, limit: nat)
    ensures
      var printable := Plain(value) && forall i :: 0 <= i < |value| ==>
        32 <= value[i] as int && !(127 <= value[i] as int < 160) && (IsWhitespace(value[i]) ==> value[i] == ' ');
      && (ParseText(value, limit) == Err(Empty) <==> value == [])
      && (ParseText(value, limit) == Err(TooLong(limit)) <==> |value| > limit && value != [])
      && (ParseText(value, limit) == Err(BadCharset) <==> 0 < |value| <= limit && !printable)
      && (ParseText(value, limit) == Ok(value) <==> 0 < |value| <= limit && printable)
  {
    hide Trim, Plain;
    TrimLeaves(value);
  }

  function Token(scope: Scope): string {
    match scope
    case Note => "note"
    case File => "file"
    case Asset => "asset"
    case ReadingReference => "reading_reference"
  }

  function FromToken(value: string): Option<Scope> {
    match value
    case "note" => Some(Note)
    case "file" => Some(File)
    case "asset" => Some(Asset)
    case "reading_reference" => Some(ReadingReference)
    case _ => None
  }

  lemma TokensRoundTrip(value: string, scope: Scope)
    ensures FromToken(value) == Some(scope) <==> value == Token(scope)
    ensures SEPARATOR !in Token(scope)
    ensures Token(Note) == "note" && Token(File) == "file" && Token(Asset) == "asset"
    ensures Token(ReadingReference) == "reading_reference"
  {
  }

  function NewKey(source: string, scope: Scope, key: string): Result<ScopedKey, KeyError> {
    match ParseText(key, MAX_KEY_CHARS)
    case Err(error) => Err(BadKey(error))
    case Ok(text) => Ok(ScopedKey(source, scope, text))
  }

  function StorageKey(k: ScopedKey): string {
    k.source + [SEPARATOR] + (Token(k.scope) + [SEPARATOR] + k.key)
  }

  function ParseStorageKey(value: string): Result<ScopedKey, KeyError> {
    match SplitOnce(value, SEPARATOR)
    case None => Err(Malformed)
    case Some((source, rest)) =>
      match SplitOnce(rest, SEPARATOR)
      case None => Err(Malformed)
      case Some((token, key)) =>
        match ParseId(source)
        case Err(error) => Err(BadSource(error))
        case Ok(id) =>
          match FromToken(token)
          case None => Err(UnknownScope)
          case Some(scope) => NewKey(id, scope, key)
  }

  lemma NoSeparatorInId(id: string)
    requires IsSourceId(id)
    ensures SEPARATOR !in id
  {
  }

  /** A storage key is read back as the key it was written for, and every text that
      reads is one that was written. */
  lemma StorageKeyRoundTrip(value: string, k: ScopedKey)
    ensures ParseStorageKey(value) == Ok(k) <==> k.Valid() && value == StorageKey(k)
  {
    hide IsPrintable, AllHex;
    if ParseStorageKey(value) == Ok(k) {
      var (source, rest) := SplitOnce(value, SEPARATOR).value;
      var (token, key) := SplitOnce(rest, SEPARATOR).value;
      TokensRoundTrip(token, k.scope);
    }
    if k.Valid() && value == StorageKey(k) {
      var rest := Token(k.scope) + [SEPARATOR] + k.key;
      NoSeparatorInId(k.source);
      TokensRoundTrip(Token(k.scope), k.scope);
      SplitAtFirst(k.source, SEPARATOR, rest);
      SplitAtFirst(Token(k.scope), SEPARATOR, k.key);
    }
  }

  /** A text is malformed exactly when it has fewer than two separators; with them, it
      is the source that is judged first, then the scope, then the key. */
  lemma RefusedKeys(value: string)
    ensures ParseStorageKey(value) == Err(Malformed) <==> |Split(value, SEPARATOR)| < 3
    ensures |Split(value, SEPARATOR)| >= 3 ==>
      var pieces := Split(value, SEPARATOR);
      && (ParseStorageKey(value).Err? && ParseStorageKey(value).error.BadSource? <==> !IsSourceId(pieces[0]))
      && (ParseStorageKey(value) == Err(UnknownScope) <==> IsSourceId(pieces[0]) && FromToken(pieces[1]).None?)
  {
    hide IsPrintable, AllHex;
    var once := SplitOnce(value, SEPARATOR);
    if once.Some? {
      var twice := SplitOnce(once.value.1, SEPARATOR);
      assert Split(value, SEPARATOR) == [once.value.0] + Split(once.value.1, SEPARATOR);
      if twice.Some? {
        assert Split(once.value.1, SEPARATOR) == [twice.value.0] + Split(twice.value.1, SEPARATOR);
      }
    }
  }

  /** Distinct keys never share a row, whatever separators the inner key holds. */
  lemma StorageKeysAreDistinct(a: ScopedKey, b: ScopedKey)
    requires a.Valid() && b.Valid() && StorageKey(a) == StorageKey(b)
    ensures a == b
  {
    StorageKeyRoundTrip(StorageKey(a), a);
    StorageKeyRoundTrip(StorageKey(a), b);
  }
}
