/** The text of the secret store: secrets by path, encrypted in counter mode, in hexadecimal. */
module SecretCodec {
  import opened Prelude

  type byte = bv8
  type Bytes = seq<byte>

  /** The secrets: objects of named values; `Leaf` stands for every value that is not an object. */
  datatype Json = Leaf(text: string) | Obj(fields: map<string, Json>)

  const EMPTY := Obj(map[])

  datatype Error = NotInitialized | AlreadyCreated | BadVector | Garbled

  /** Printing and parsing of JSON, and the keystream that a password gives with a vector. */
  datatype Codec = Codec(print_: Json -> Bytes, parse: Bytes -> Option<Json>, stream: (Bytes, nat) -> byte)

  ghost predicate Lawful(codec: Codec) {
    forall v {:trigger codec.print_(v)} :: codec.print_(v) != [] && codec.parse(codec.print_(v)) == Some(v)
  }

  // ----- the cipher

  /** Counter mode, section 6.5 of NIST SP 800-38A: the same operation both ways. */
  function Xor(codec: Codec, text: Bytes, iv: Bytes): (r: Bytes)
    ensures |r| == |text| && forall i :: 0 <= i < |r| ==> r[i] == text[i] ^ codec.stream(iv, i)
  {
    seq(|text|, i requires 0 <= i < |text| => text[i] ^ codec.stream(iv, i))
  }

  function Digit(n: byte): byte {
    if n < 10 then n + 48 else n + 87
  }

  /** The value of a hexadecimal digit in either case. */
  function Value(c: byte): Option<byte> {
    if 48 <= c <= 57 then Some(c - 48)
    else if 97 <= c <= 102 then Some(c - 87)
    else if 65 <= c <= 70 then Some(c - 55)
    else None
  }

  function ToHex(text: Bytes): Bytes {
    if text == [] then [] else [Digit(text[0] >> 4), Digit(text[0] & 15)] + ToHex(text[1..])
  }

  /** Decoding stops at the first pair that is not hexadecimal. */
  function FromHex(text: Bytes): Bytes {
    if |text| < 2 || Value(text[0]).None? || Value(text[1]).None? then []
    else [(Value(text[0]).value << 4) | Value(text[1]).value] + FromHex(text[2..])
  }

  lemma XorTwice(codec: Codec, text: Bytes, iv: Bytes)
    ensures Xor(codec, Xor(codec, text, iv), iv) == text
  {
    var r := Xor(codec, Xor(codec, text, iv), iv);
    forall i | 0 <= i < |text|
      ensures r[i] == text[i]
    {
      Cancel(text[i], codec.stream(iv, i));
    }
  }

  lemma Cancel(x: byte, k: byte)
    ensures (x ^ k) ^ k == x
  {
  }

  lemma DigitsOfByte(b: byte)
    ensures Value(Digit(b >> 4)) == Some(b >> 4) && Value(Digit(b & 15)) == Some(b & 15)
    ensures ((b >> 4) << 4) | (b & 15) == b
  {
    assert (b >> 4) < 16 && (b & 15) < 16;
  }

  lemma {:induction false} HexRoundTrip(text: Bytes)
    ensures FromHex(ToHex(text)) == text
  {
    if text != [] {
      DigitsOfByte(text[0]);
      HexRoundTrip(text[1..]);
      assert ToHex(text)[2..] == ToHex(text[1..]);
    }
  }

  function Encrypt(codec: Codec, secrets: Json, iv: Bytes): Result<Bytes, Error> {
    if |iv| != 16 then Err(BadVector) else Ok(ToHex(Xor(codec, codec.print_(secrets), iv)))
  }

  /** Empty text stands for the empty object. */
  function Decrypt(codec: Codec, raw: Bytes, iv: Bytes): Result<Json, Error> {
    if |iv| != 16 then Err(BadVector)
    else
      var text := Xor(codec, FromHex(raw), iv);
      if text == [] then Ok(EMPTY)
      else match codec.parse(text)
        case None => Err(Garbled)
        case Some(v) => Ok(v)
  }

  /** The digits of hexadecimal text: `0` to `9`, then `a` to `f`. */
  const DIGITS: Bytes := [48, 49, 50, 51, 52, 53, 54, 55, 56, 57, 97, 98, 99, 100, 101, 102]

  lemma DigitIs(n: byte)
    requires n < 16
    ensures Digit(n) == DIGITS[n as int]
  {
  }

  lemma {:induction false} HexExactly(text: Bytes, i: nat)
    requires i < |text|
    ensures |ToHex(text)| == 2 * |text|
    ensures (text[i] >> 4) < 16 && (text[i] & 15) < 16
    ensures ToHex(text)[2 * i] == DIGITS[(text[i] >> 4) as int]
    ensures ToHex(text)[2 * i + 1] == DIGITS[(text[i] & 15) as int]
  {
    DigitIs(text[i] >> 4);
    DigitIs(text[i] & 15);
    HexLength(text);
    if i > 0 {
      HexExactly(text[1..], i - 1);
      assert ToHex(text)[2..] == ToHex(text[1..]);
    }
  }

  lemma {:induction false} HexLength(text: Bytes)
    ensures |ToHex(text)| == 2 * |text|
  {
    if text != [] {
      HexLength(text[1..]);
    }
  }

  /**
   What is stored: two hexadecimal digits for every byte of the printed secrets, the high
   one first, each byte combined with that of the keystream at its place.
  */
  lemma StoredExactly(codec: Codec, secrets: Json, iv: Bytes, i: nat)
    requires |iv| == 16 && i < |codec.print_(secrets)|
    ensures var raw := Encrypt(codec, secrets, iv);
      && raw.Ok? && |raw.value| == 2 * |codec.print_(secrets)|
      && var b := codec.print_(secrets)[i] ^ codec.stream(iv, i);
      && (b >> 4) < 16 && (b & 15) < 16
      && raw.value[2 * i] == DIGITS[(b >> 4) as int] && raw.value[2 * i + 1] == DIGITS[(b & 15) as int]
  {
    HexExactly(Xor(codec, codec.print_(secrets), iv), i);
  }

  lemma CipherRoundTrip(codec: Codec, secrets: Json, iv: Bytes)
    requires Lawful(codec) && |iv| == 16
    ensures Decrypt(codec, Encrypt(codec, secrets, iv).value, iv) == Ok(secrets)
  {
    var text := codec.print_(secrets);
    HexRoundTrip(Xor(codec, text, iv));
    XorTwice(codec, text, iv);
  }

  // ----- paths

  /** `lodash.get` */
  function Lookup(v: Json, path: seq<string>): Option<Json> {
    if path == [] then Some(v)
    else if v.Obj? && path[0] in v.fields then Lookup(v.fields[path[0]], path[1..])
    else None
  }

  /** `lodash.set`: missing objects and values in the way are replaced by objects, except the root. */
  function Put(v: Json, path: seq<string>, x: Json): Json
    decreases |path|
  {
    if path == [] || v.Leaf? then v
    else
      var child := if path[0] in v.fields && v.fields[path[0]].Obj? then v.fields[path[0]] else EMPTY;
      Obj(v.fields[path[0] := if |path| == 1 then x else Put(child, path[1..], x)])
  }

  /** `lodash.unset` */
  function Remove(v: Json, path: seq<string>): Json
    decreases |path|
  {
    if path == [] || v.Leaf? || path[0] !in v.fields then v
    else if |path| == 1 then Obj(v.fields - {path[0]})
    else Obj(v.fields[path[0] := Remove(v.fields[path[0]], path[1..])])
  }

  /** Neither path leads through the other. */
  predicate Apart(p: seq<string>, q: seq<string>) {
    p != [] && q != [] && (p[0] != q[0] || Apart(p[1..], q[1..]))
  }

  /** What was put is found, and every other path leads where it did. */
  lemma {:induction false} LookupPut(v: Json, path: seq<string>, x: Json)
    requires v.Obj? && path != []
    ensures Put(v, path, x).Obj? && Lookup(Put(v, path, x), path) == Some(x)
    ensures forall q :: Apart(path, q) ==> Lookup(Put(v, path, x), q) == Lookup(v, q)
    decreases |path|
  {
    var child := if path[0] in v.fields && v.fields[path[0]].Obj? then v.fields[path[0]] else EMPTY;
    if |path| == 1 {
      assert forall q :: Apart(path, q) ==> q[0] != path[0];
    } else {
      LookupPut(child, path[1..], x);
    }
    forall q | Apart(path, q)
      ensures Lookup(Put(v, path, x), q) == Lookup(v, q)
    {
      if q[0] == path[0] {
        assert Lookup(Put(child, path[1..], x), q[1..]) == Lookup(child, q[1..]);
      }
    }
  }

  /** What was removed is gone, and every other path leads where it did. */
  lemma {:induction false} LookupRemove(v: Json, path: seq<string>)
    requires path != []
    ensures Lookup(Remove(v, path), path) == None
    ensures forall q :: Apart(path, q) ==> Lookup(Remove(v, path), q) == Lookup(v, q)
    decreases |path|
  {
    if v.Obj? && path[0] in v.fields && |path| > 1 {
      LookupRemove(v.fields[path[0]], path[1..]);
      forall q | Apart(path, q)
        ensures Lookup(Remove(v, path), q) == Lookup(v, q)
      {
        if q[0] == path[0] {
          assert Lookup(Remove(v.fields[path[0]], path[1..]), q[1..]) == Lookup(v.fields[path[0]], q[1..]);
        }
      }
    }
  }
}
