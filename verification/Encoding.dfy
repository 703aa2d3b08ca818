/**
 How keys and room names are encoded: base64url parts joined by colons (src/socket/realtime_gateway.ts; section 5 of
 RFC 4648, without padding), length-prefixed parts (src/utils/compound_key.ts) and zero-terminated parts
 (src/services/sync_cache.ts). A part is the bytes of its UTF-8 form.
 */
module Encoding {
  import opened Redis

  type Byte = b: int | 0 <= b < 256

  type Sextet = n: int | 0 <= n < 64

  // ---------- base64url ----------

  function CharOf(n: Sextet): char
  {
    if n < 26 then ('A' as int + n) as char
    else if n < 52 then ('a' as int + n - 26) as char
    else if n < 62 then ('0' as int + n - 52) as char
    else if n == 62 then '-' else '_'
  }

  function SextetOf(c: char): Option<Sextet>
  {
    if 'A' <= c <= 'Z' then Some(c as int - 'A' as int)
    else if 'a' <= c <= 'z' then Some(c as int - 'a' as int + 26)
    else if '0' <= c <= '9' then Some(c as int - '0' as int + 52)
    else if c == '-' then Some(62)
    else if c == '_' then Some(63)
    else None
  }

  /** Base64url without padding. */
  function Base64Url(bytes: seq<Byte>): string
  {
    if |bytes| == 0 then ""
    else if |bytes| == 1 then [CharOf(bytes[0] / 4), CharOf(bytes[0] % 4 * 16)]
    else if |bytes| == 2 then
      [CharOf(bytes[0] / 4), CharOf(bytes[0] % 4 * 16 + bytes[1] / 16), CharOf(bytes[1] % 16 * 4)]
    else
      [CharOf(bytes[0] / 4), CharOf(bytes[0] % 4 * 16 + bytes[1] / 16), CharOf(bytes[1] % 16 * 4 + bytes[2] / 64),
       CharOf(bytes[2] % 64)] + Base64Url(bytes[3..])
  }

  function Sextets(text: string): Option<seq<Sextet>>
  {
    if text == "" then Some([])
    else
      match (SextetOf(text[0]), Sextets(text[1..]))
      case (Some(n), Some(rest)) => Some([n] + rest)
      case _ => None
  }

  /** The inverse, an independent reading of the same section: bits regrouped from sixes into eights. */
  function Bytes(sextets: seq<Sextet>): seq<Byte>
  {
    if |sextets| < 2 then []
    else
      var a: int, b: int := sextets[0], sextets[1];
      if |sextets| == 2 then [a * 4 + b / 16]
      else
        var c: int := sextets[2];
        if |sextets| == 3 then [a * 4 + b / 16, b % 16 * 16 + c / 4]
        else
          var d: int := sextets[3];
          [a * 4 + b / 16, b % 16 * 16 + c / 4, c % 4 * 64 + d] + Bytes(sextets[4..])
  }

  function Decode(text: string): Option<seq<Byte>>
  {
    match Sextets(text)
    case None => None
    case Some(sextets) => Some(Bytes(sextets))
  }

  lemma CharRoundTrip(n: Sextet)
    ensures SextetOf(CharOf(n)) == Some(n) && CharOf(n) != ':'
  {
  }

  lemma SextetsCons(n: Sextet, text: string)
    requires Sextets(text).Some?
    ensures Sextets([CharOf(n)] + text) == Some([n] + Sextets(text).value)
  {
    CharRoundTrip(n);
    assert ([CharOf(n)] + text)[1..] == text;
  }

  /** Any bytes decode back from their base64url form, which has no colon. */
  lemma {:induction false} Base64RoundTrip(bytes: seq<Byte>)
    ensures Decode(Base64Url(bytes)) == Some(bytes)
    ensures ':' !in Base64Url(bytes)
  {
    hide Base64Url, Decode;
    if bytes == [] {
      EmptyText();
    } else if |bytes| == 1 {
      OneByte(bytes[0]);
      assert bytes == [bytes[0]];
    } else if |bytes| == 2 {
      TwoBytes(bytes[0], bytes[1]);
      assert bytes == [bytes[0], bytes[1]];
    } else {
      Base64RoundTrip(bytes[3..]);
      ThreeBytes(bytes[0], bytes[1], bytes[2], bytes[3..]);
      assert bytes == [bytes[0], bytes[1], bytes[2]] + bytes[3..];
    }
  }

  lemma EmptyText()
    ensures Decode(Base64Url([])) == Some([]) && ':' !in Base64Url([])
  {
  }

  lemma OneByte(x: Byte)
    ensures Decode(Base64Url([x])) == Some([x]) && ':' !in Base64Url([x])
  {
    TwoChars(x / 4, x % 4 * 16);
  }

  lemma TwoChars(a: Sextet, b: Sextet)
    ensures Sextets([CharOf(a), CharOf(b)]) == Some([a, b])
    ensures CharOf(a) != ':' && CharOf(b) != ':'
  {
    CharRoundTrip(a);
    CharRoundTrip(b);
    SextetsCons(b, "");
    assert [CharOf(b)] + "" == [CharOf(b)] && [b] + [] == [b] && [a] + [b] == [a, b];
    SextetsCons(a, [CharOf(b)]);
    assert [CharOf(a)] + [CharOf(b)] == [CharOf(a), CharOf(b)];
  }

  lemma TwoBytes(x: Byte, y: Byte)
    ensures Decode(Base64Url([x, y])) == Some([x, y]) && ':' !in Base64Url([x, y])
  {
    var (a, b, c) := (x / 4, x % 4 * 16 + y / 16, y % 16 * 4);
    TwoChars(b, c);
    SextetsCons(a, [CharOf(b), CharOf(c)]);
    CharRoundTrip(a);
    var text := [CharOf(a)] + [CharOf(b), CharOf(c)];
    assert text == Base64Url([x, y]) && [a] + [b, c] == [a, b, c];
    hide Sextets;
    assert Bytes([a, b, c]) == [x, y];
  }

  lemma FourSextets(a: Sextet, b: Sextet, c: Sextet, d: Sextet, tail: string)
    requires Sextets(tail).Some?
    ensures Sextets([CharOf(a), CharOf(b), CharOf(c), CharOf(d)] + tail) == Some([a, b, c, d] + Sextets(tail).value)
  {
    SextetsCons(d, tail);
    SextetsCons(c, [CharOf(d)] + tail);
    SextetsCons(b, [CharOf(c)] + ([CharOf(d)] + tail));
    SextetsCons(a, [CharOf(b)] + ([CharOf(c)] + ([CharOf(d)] + tail)));
    hide Sextets, CharOf;
    assert [CharOf(a), CharOf(b), CharOf(c), CharOf(d)] + tail
        == [CharOf(a)] + ([CharOf(b)] + ([CharOf(c)] + ([CharOf(d)] + tail)));
    assert [a, b, c, d] + Sextets(tail).value == [a] + ([b] + ([c] + ([d] + Sextets(tail).value)));
  }

  lemma ThreeBytes(x: Byte, y: Byte, z: Byte, rest: seq<Byte>)
    requires Decode(Base64Url(rest)) == Some(rest) && ':' !in Base64Url(rest)
    ensures Decode(Base64Url([x, y, z] + rest)) == Some([x, y, z] + rest)
    ensures ':' !in Base64Url([x, y, z] + rest)
  {
    var (a, b, c, d) := (x / 4, x % 4 * 16 + y / 16, y % 16 * 4 + z / 64, z % 64);
    var tail := Base64Url(rest);
    assert ([x, y, z] + rest)[3..] == rest;
    assert Base64Url([x, y, z] + rest) == [CharOf(a), CharOf(b), CharOf(c), CharOf(d)] + tail;
    FourSextets(a, b, c, d, tail);
    CharRoundTrip(a);
    CharRoundTrip(b);
    CharRoundTrip(c);
    CharRoundTrip(d);
    hide Sextets, CharOf, Base64Url;
    var sextets := [a, b, c, d] + Sextets(tail).value;
    assert sextets[4..] == Sextets(tail).value;
    Regroup(x, y, z);
  }

  /** Three bytes are four sextets. */
  lemma Regroup(x: Byte, y: Byte, z: Byte)
    ensures var a: int, b: int, c: int, d: int := x / 4, x % 4 * 16 + y / 16, y % 16 * 4 + z / 64, z % 64;
            a * 4 + b / 16 == x && b % 16 * 16 + c / 4 == y && c % 4 * 64 + d == z
  {
  }

  // ---------- room names ----------

  /** `build_room` */
  function BuildRoom(kind: string, parts: seq<seq<Byte>>): string
    decreases |parts|
  {
    if parts == [] then kind
    else BuildRoom(kind, parts[..|parts| - 1]) + ":" + Base64Url(parts[|parts| - 1])
  }

  /** The colon-separated fields of a text, reading from the right. */
  function Fields(text: string, field: string): seq<string>
    decreases |text|
  {
    if text == "" then [field]
    else if text[|text| - 1] == ':' then Fields(text[..|text| - 1], "") + [field]
    else Fields(text[..|text| - 1], [text[|text| - 1]] + field)
  }

  lemma {:induction false} FieldsOfPlain(text: string, field: string)
    requires ':' !in text
    ensures Fields(text, field) == [text + field]
    decreases |text|
  {
    if text != "" {
      var shorter, last := text[..|text| - 1], text[|text| - 1];
      assert text == shorter + [last];
      FieldsOfPlain(shorter, [last] + field);
      assert shorter + ([last] + field) == text + field;
    } else {
      assert text + field == field;
    }
  }

  lemma {:induction false} FieldsOfLast(text: string, plain: string, field: string)
    requires ':' !in plain
    ensures Fields(text + ":" + plain, field) == Fields(text, "") + [plain + field]
    decreases |plain|
  {
    var whole := text + ":" + plain;
    if plain == "" {
      assert whole == text + ":";
      assert whole[..|whole| - 1] == text;
      assert plain + field == field;
    } else {
      var shorter, last := plain[..|plain| - 1], plain[|plain| - 1];
      assert plain == shorter + [last];
      assert whole[..|whole| - 1] == text + ":" + shorter;
      FieldsOfLast(text, shorter, [last] + field);
      assert shorter + ([last] + field) == plain + field;
    }
  }

  function EncodedParts(parts: seq<seq<Byte>>): (r: seq<string>)
    ensures |r| == |parts|
  {
    seq(|parts|, i requires 0 <= i < |parts| => Base64Url(parts[i]))
  }

  /** The fields of a room name are its kind and its encoded parts. */
  lemma {:induction false} RoomFields(kind: string, parts: seq<seq<Byte>>)
    requires ':' !in kind
    ensures Fields(BuildRoom(kind, parts), "") == [kind] + EncodedParts(parts)
    decreases |parts|
  {
    if parts == [] {
      FieldsOfPlain(kind, "");
      assert kind + "" == kind;
    } else {
      var shorter, last := parts[..|parts| - 1], parts[|parts| - 1];
      var text := Base64Url(last);
      RoomFields(kind, shorter);
      Base64RoundTrip(last);
      hide Base64Url, Decode, Fields;
      FieldsOfLast(BuildRoom(kind, shorter), text, "");
      assert text + "" == text;
      assert EncodedParts(parts) == EncodedParts(shorter) + [text];
      assert [kind] + EncodedParts(shorter) + [text] == [kind] + EncodedParts(parts);
    }
  }

  /** Different kinds or different parts never share a room. */
  lemma RoomsAreDistinct(kind: string, parts: seq<seq<Byte>>, kind': string, parts': seq<seq<Byte>>)
    requires ':' !in kind && ':' !in kind' && BuildRoom(kind, parts) == BuildRoom(kind', parts')
    ensures kind == kind' && parts == parts'
  {
    RoomFields(kind, parts);
    RoomFields(kind', parts');
    var fields := Fields(BuildRoom(kind, parts), "");
    assert fields[0] == kind == kind';
    assert EncodedParts(parts) == fields[1..] == EncodedParts(parts');
    forall i | 0 <= i < |parts| ensures parts[i] == parts'[i] {
      assert EncodedParts(parts)[i] == EncodedParts(parts')[i];
      Base64RoundTrip(parts[i]);
      Base64RoundTrip(parts'[i]);
    }
  }

  // ---------- length-prefixed parts ----------

  const MAX_LENGTH := 0x1_0000_0000

  /** `writeUInt32BE` */
  function Uint32BE(n: nat): seq<Byte>
    requires n < MAX_LENGTH
  {
    [n / 0x100_0000, n / 0x1_0000 % 0x100, n / 0x100 % 0x100, n % 0x100]
  }

  function FromUint32BE(bytes: seq<Byte>): nat
    requires |bytes| == 4
  {
    var a: int, b: int, c: int, d: int := bytes[0], bytes[1], bytes[2], bytes[3];
    ((a * 0x100 + b) * 0x100 + c) * 0x100 + d
  }

  lemma Uint32RoundTrip(n: nat)
    requires n < MAX_LENGTH
    ensures FromUint32BE(Uint32BE(n)) == n
  {
    assert n / 0x1_0000 == n / 0x100_0000 * 0x100 + n / 0x1_0000 % 0x100;
    assert n / 0x100 == n / 0x1_0000 * 0x100 + n / 0x100 % 0x100;
    assert n == n / 0x100 * 0x100 + n % 0x100;
  }

  predicate Short(parts: seq<seq<Byte>>) { forall p :: p in parts ==> |p| < MAX_LENGTH }

  /** What `build_compound_key` hashes. */
  function Prefixed(parts: seq<seq<Byte>>): seq<Byte>
    requires Short(parts)
  {
    if parts == [] then [] else Uint32BE(|parts[0]|) + parts[0] + Prefixed(parts[1..])
  }

  /** Reads length-prefixed parts back. */
  function ParsePrefixed(bytes: seq<Byte>): Option<seq<seq<Byte>>>
    decreases |bytes|
  {
    if bytes == [] then Some([])
    else if |bytes| < 4 then None
    else
      var length := FromUint32BE(bytes[..4]);
      if |bytes| < 4 + length then None
      else
        match ParsePrefixed(bytes[4 + length..])
        case None => None
        case Some(rest) => Some([bytes[4..4 + length]] + rest)
  }

  /** The hashed bytes determine the parts, whatever the parts are. */
  lemma {:induction false} PrefixedRoundTrip(parts: seq<seq<Byte>>)
    requires Short(parts)
    ensures ParsePrefixed(Prefixed(parts)) == Some(parts)
  {
    if parts != [] {
      var first := parts[0];
      var bytes := Prefixed(parts);
      Uint32RoundTrip(|first|);
      assert bytes[..4] == Uint32BE(|first|);
      assert bytes[4..4 + |first|] == first;
      assert bytes[4 + |first|..] == Prefixed(parts[1..]);
      PrefixedRoundTrip(parts[1..]);
      assert [first] + parts[1..] == parts;
    }
  }

  /** A `node:crypto` hash: it collects the bytes it is updated with. */
  class Hash {
    var hashed: seq<Byte>

    constructor ()
      ensures hashed == []
    {
      hashed := [];
    }

    method Update(bytes: seq<Byte>)
      modifies this
      ensures hashed == old(hashed) + bytes
    {
      hashed := hashed + bytes;
    }
  }

  lemma {:induction false} PrefixedAppend(parts: seq<seq<Byte>>, last: seq<Byte>)
    requires Short(parts + [last])
    ensures Short(parts)
    ensures Prefixed(parts + [last]) == Prefixed(parts) + Uint32BE(|last|) + last
  {
    assert forall p :: p in parts ==> p in parts + [last];
    assert last in parts + [last];
    if parts == [] {
      assert (parts + [last])[1..] == [];
      assert Prefixed([last]) == Uint32BE(|last|) + last + [];
    } else {
      assert (parts + [last])[1..] == parts[1..] + [last];
      PrefixedAppend(parts[1..], last);
    }
  }

  /** `build_compound_key`: its loop, and the length it refuses to write. */
  method BuildCompoundKey(parts: seq<seq<Byte>>) returns (preimage: Option<seq<Byte>>)
    ensures preimage.Some? <==> Short(parts)
    ensures preimage.Some? ==> ParsePrefixed(preimage.value) == Some(parts)
  {
    var hash := new Hash();
    for i := 0 to |parts|
      invariant Short(parts[..i]) && hash.hashed == Prefixed(parts[..i])
      invariant fresh(hash)
    {
      var value := parts[i];
      if |value| >= MAX_LENGTH {
        return None;
      }
      assert parts[..i + 1] == parts[..i] + [value];
      PrefixedAppend(parts[..i], value);
      hash.Update(Uint32BE(|value|));
      hash.Update(value);
    }
    assert parts[..|parts|] == parts;
    PrefixedRoundTrip(parts);
    preimage := Some(hash.hashed);
  }

  /** The whole key, for a digest function. */
  function CompoundKey(digest: seq<Byte> -> seq<Byte>, space: string, parts: seq<seq<Byte>>): string
    requires Short(parts)
  {
    space + ":v2" + ":" + Base64Url(digest(Prefixed(parts)))
  }

  /** If the digest has no collisions, neither have the keys, across all namespaces. */
  lemma CompoundKeysAreDistinct(
    digest: seq<Byte> -> seq<Byte>, space: string, parts: seq<seq<Byte>>, space': string, parts': seq<seq<Byte>>)
    requires forall x, y :: digest(x) == digest(y) ==> x == y
    requires Short(parts) && Short(parts') && ':' !in space && ':' !in space'
    requires CompoundKey(digest, space, parts) == CompoundKey(digest, space', parts')
    ensures space == space' && parts == parts'
  {
    KeyFields(space, digest(Prefixed(parts)));
    KeyFields(space', digest(Prefixed(parts')));
    var fields := Fields(CompoundKey(digest, space, parts), "");
    assert fields[0] == space && fields[0] == space';
    assert fields[2] == Base64Url(digest(Prefixed(parts))) && fields[2] == Base64Url(digest(Prefixed(parts')));
    Base64RoundTrip(digest(Prefixed(parts)));
    Base64RoundTrip(digest(Prefixed(parts')));
    PrefixedRoundTrip(parts);
    PrefixedRoundTrip(parts');
  }

  lemma KeyFields(space: string, hash: seq<Byte>)
    requires ':' !in space
    ensures Fields(space + ":v2" + ":" + Base64Url(hash), "") == [space, "v2", Base64Url(hash)]
  {
    Base64RoundTrip(hash);
    FieldsOfLast(space + ":v2", Base64Url(hash), "");
    FieldsOfLast(space, "v2", "");
    FieldsOfPlain(space, "");
    assert space + ":v2" == space + ":" + "v2";
    assert space + "" == space && Base64Url(hash) + "" == Base64Url(hash) && "v2" + "" == "v2";
    hide Fields;
  }

  // ---------- zero-terminated parts ----------

  /** What `hash_parts` hashes. */
  function Terminated(parts: seq<seq<Byte>>): seq<Byte>
  {
    if parts == [] then [] else parts[0] + [0] + Terminated(parts[1..])
  }

  /** The pieces that end with a zero byte. */
  function Pieces(bytes: seq<Byte>, piece: seq<Byte>): seq<seq<Byte>>
  {
    if bytes == [] then []
    else if bytes[0] == 0 then [piece] + Pieces(bytes[1..], [])
    else Pieces(bytes[1..], piece + [bytes[0]])
  }

  predicate ZeroFree(parts: seq<seq<Byte>>) { forall p :: p in parts ==> 0 !in p }

  lemma {:induction false} PiecesAreZeroFree(bytes: seq<Byte>, piece: seq<Byte>)
    requires 0 !in piece
    ensures ZeroFree(Pieces(bytes, piece))
  {
    if bytes != [] {
      if bytes[0] == 0 {
        PiecesAreZeroFree(bytes[1..], []);
      } else {
        PiecesAreZeroFree(bytes[1..], piece + [bytes[0]]);
      }
    }
  }

  lemma {:induction false} FirstPiece(part: seq<Byte>, rest: seq<Byte>, piece: seq<Byte>)
    requires 0 !in part
    ensures Pieces(part + [0] + rest, piece) == [piece + part] + Pieces(rest, [])
  {
    var bytes := part + [0] + rest;
    if part == [] {
      assert bytes[1..] == rest && piece + part == piece;
    } else {
      assert bytes[1..] == part[1..] + [0] + rest;
      FirstPiece(part[1..], rest, piece + [part[0]]);
      assert piece + [part[0]] + part[1..] == piece + part;
    }
  }

  /** Zero-terminated parts can be told apart exactly when none of them contains a zero byte. */
  lemma {:induction false} TerminatedRoundTrip(parts: seq<seq<Byte>>)
    ensures Pieces(Terminated(parts), []) == parts <==> ZeroFree(parts)
  {
    PiecesAreZeroFree(Terminated(parts), []);
    if ZeroFree(parts) && parts != [] {
      TerminatedRoundTrip(parts[1..]);
      FirstPiece(parts[0], Terminated(parts[1..]), []);
      assert [] + parts[0] == parts[0] && [parts[0]] + parts[1..] == parts;
    }
  }

  /** Otherwise even lists of the same length collide. */
  lemma ZeroBytesCollide(a: seq<Byte>, b: seq<Byte>, c: seq<Byte>)
    requires b != []
    ensures Terminated([a + [0] + b, c]) == Terminated([a, b + [0] + c]) && [a + [0] + b, c] != [a, b + [0] + c]
  {
    TerminatedPair(a + [0] + b, c);
    TerminatedPair(a, b + [0] + c);
    assert a + [0] + b + [0] + c + [0] == a + [0] + (b + [0] + c) + [0];
    assert |a + [0] + b| != |a|;
  }

  lemma TerminatedPair(p: seq<Byte>, q: seq<Byte>)
    ensures Terminated([p, q]) == p + [0] + q + [0]
  {
    assert [p, q][1..] == [q] && Terminated([q]) == q + [0] + [];
    assert p + [0] + (q + [0]) == p + [0] + q + [0];
  }
}
