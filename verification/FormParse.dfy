/** The captive portal's form parser: URL decoding in place in a NUL-terminated buffer, and the lookup of one
    field in a form body. */
module FormParse {
  import opened IntMath
  import opened Wrappers

  const NUL: Byte := 0
  const SPACE: Byte := 32
  const PERCENT: Byte := 37
  const AMPERSAND: Byte := 38
  const PLUS: Byte := 43
  const EQUALS: Byte := 61

  // ----- C strings

  /** The position of the first b, or the length when there is none. */
  function IndexOf(s: seq<Byte>, b: Byte): (n: nat)
    ensures n <= |s| && b !in s[..n]
    ensures n < |s| ==> s[n] == b
    ensures b in s <==> n < |s|
  {
    if s == [] || s[0] == b then 0
    else
      var n := IndexOf(s[1..], b);
      assert s[..n + 1] == [s[0]] + s[1..][..n];
      n + 1
  }

  lemma {:induction false} FirstAt(s: seq<Byte>, b: Byte, n: nat)
    requires n < |s| && s[n] == b && b !in s[..n]
    ensures IndexOf(s, b) == n
    decreases |s|
  {
    if n > 0 {
      assert s[0] in s[..n];
      assert s[1..][..n - 1] == s[..n][1..];
      FirstAt(s[1..], b, n - 1);
    }
  }

  /** The string a buffer holds: everything before its first NUL. */
  function Text(s: seq<Byte>): (t: seq<Byte>)
    ensures NUL !in t && t <= s
    ensures NUL in s ==> |t| < |s| && s[|t|] == NUL
  {
    s[..IndexOf(s, NUL)]
  }

  // ----- Percent-encoding

  predicate HexDigit(b: Byte) { 48 <= b <= 57 || 65 <= b <= 70 || 97 <= b <= 102 }

  function HexValue(b: Byte): (v: nat)
    requires HexDigit(b)
    ensures v < 16
  {
    if b <= 57 then b - 48 else if b <= 70 then b - 55 else b - 87
  }

  function HexByte(hi: Byte, lo: Byte): Byte
    requires HexDigit(hi) && HexDigit(lo)
  {
    HexValue(hi) * 16 + HexValue(lo)
  }

  /** An escape starts the string. */
  predicate Escape(s: seq<Byte>) { |s| >= 3 && s[0] == PERCENT && HexDigit(s[1]) && HexDigit(s[2]) }

  function Decode(s: seq<Byte>): (d: seq<Byte>)
    ensures |d| <= |s|
    decreases |s|
  {
    if s == [] then []
    else if s[0] == PLUS then [SPACE] + Decode(s[1..])
    else if Escape(s) then [HexByte(s[1], s[2])] + Decode(s[3..])
    else [s[0]] + Decode(s[1..])
  }

  /** The hexadecimal digits and their values. */
  lemma HexDigitsAre(b: Byte)
    ensures HexDigit(b) <==> b as char in "0123456789abcdefABCDEF"
    ensures HexDigit(b) ==> "0123456789abcdef"[HexValue(b)] == b as char || "0123456789ABCDEF"[HexValue(b)] == b as char
  {
  }

  /** The same hexadecimal digit in either case. */
  predicate SameDigit(a: Byte, b: Byte) { a == b || (65 <= a <= 70 && b == a + 32) || (65 <= b <= 70 && a == b + 32) }

  lemma CaseDoesNotMatter(hi: Byte, lo: Byte, hi': Byte, lo': Byte, rest: seq<Byte>)
    requires HexDigit(hi) && HexDigit(lo) && SameDigit(hi, hi') && SameDigit(lo, lo')
    ensures Decode([PERCENT, hi, lo] + rest) == Decode([PERCENT, hi', lo'] + rest)
  {
    assert ([PERCENT, hi, lo] + rest)[3..] == rest && ([PERCENT, hi', lo'] + rest)[3..] == rest;
  }

  predicate Unreserved(b: Byte) {
    48 <= b <= 57 || 65 <= b <= 90 || 97 <= b <= 122 || b == 42 || b == 45 || b == 46 || b == 95
  }

  function HexCharacter(v: nat): (b: Byte)
    requires v < 16
    ensures HexDigit(b) && HexValue(b) == v && b != NUL && b != AMPERSAND && b != EQUALS
  {
    if v < 10 then 48 + v else 55 + v
  }

  /** The serializer of the form content type: alphanumerics and four marks stand for themselves, a space
      becomes a plus, everything else an escape. */
  function EncodeByte(b: Byte): (e: seq<Byte>)
    ensures e != [] && NUL !in e && AMPERSAND !in e && EQUALS !in e
  {
    if Unreserved(b) then [b]
    else if b == ' ' as Byte then ['+' as Byte]
    else ['%' as Byte, HexCharacter(b / 16), HexCharacter(b % 16)]
  }

  function Encode(s: seq<Byte>): (e: seq<Byte>)
    ensures NUL !in e && AMPERSAND !in e && EQUALS !in e
  {
    if s == [] then [] else EncodeByte(s[0]) + Encode(s[1..])
  }

  lemma DecodeEncodedByte(b: Byte, rest: seq<Byte>)
    ensures Decode(EncodeByte(b) + rest) == [b] + Decode(rest)
  {
    var s := EncodeByte(b) + rest;
    if Unreserved(b) || b == SPACE {
      assert s[1..] == rest;
    } else {
      assert s[3..] == rest && b == b / 16 * 16 + b % 16;
    }
  }

  /** Decoding what the serializer encodes gives back every byte string. */
  lemma {:induction false} DecodeEncode(s: seq<Byte>)
    ensures Decode(Encode(s)) == s
    decreases |s|
  {
    hide EncodeByte, Decode;
    if s == [] {
      DecodeEmpty();
    } else {
      DecodeEncode(s[1..]);
      DecodeEncodedByte(s[0], Encode(s[1..]));
    }
  }

  lemma DecodeEmpty()
    ensures Decode([]) == []
  {
  }

  /** So no two strings share an encoding. */
  lemma EncodeInjective(s: seq<Byte>, t: seq<Byte>)
    requires Encode(s) == Encode(t)
    ensures s == t
  {
    DecodeEncode(s);
    DecodeEncode(t);
  }

  // ----- Decoding in place

  /** The byte that the text at position `at` decodes to first, and how many bytes it takes up. */
  function Piece(text: seq<Byte>, at: nat): (p: (Byte, nat))
    requires at < |text|
    ensures 1 <= p.1 && at + p.1 <= |text|
  {
    if text[at] == PLUS then (SPACE, 1)
    else if Escape(text[at..]) then (HexByte(text[at + 1], text[at + 2]), 3)
    else (text[at], 1)
  }

  lemma DecodePiece(text: seq<Byte>, at: nat)
    requires at < |text|
    ensures var (b, width) := Piece(text, at); Decode(text[at..]) == [b] + Decode(text[at + width..])
  {
    assert text[at..][1..] == text[at + 1..];
    if Escape(text[at..]) {
      assert text[at..][3..] == text[at + 3..];
    }
  }

  /** The terminator ends an escape that is cut short, so the branch taken on the buffer is that of the text. */
  lemma PieceInBuffer(buffer: seq<Byte>, text: seq<Byte>, at: nat)
    requires at < |text| < |buffer| && buffer[at..|text|] == text[at..] && buffer[|text|] == NUL
    ensures buffer[at] == text[at]
    ensures buffer[at] == PERCENT && HexDigit(buffer[at + 1]) ==> at + 2 < |buffer|
    ensures buffer[at] == PERCENT && HexDigit(buffer[at + 1]) && HexDigit(buffer[at + 2]) <==> Escape(text[at..])
    ensures Escape(text[at..]) ==> buffer[at + 1] == text[at + 1] && buffer[at + 2] == text[at + 2]
  {
    assert forall i :: at <= i < |text| ==> buffer[i] == text[at..][i - at];
    assert forall i :: at <= i < |text| ==> buffer[at..|text|][i - at] == buffer[i];
  }

  /** The buffer while it is being decoded: the decoded part, some stale bytes, the part still to be read. */
  ghost predicate Decoding(buffer: seq<Byte>, was: seq<Byte>, text: seq<Byte>, read: nat, write: nat) {
    && write <= read <= |text| < |buffer| == |was| && text <= was && was[|text|] == NUL
    && buffer[write..] == was[write..]
    && Decode(text) == buffer[..write] + Decode(text[read..])
  }

  lemma DecodingStep(buffer: seq<Byte>, was: seq<Byte>, text: seq<Byte>, read: nat, write: nat)
    requires Decoding(buffer, was, text, read, write) && read < |text|
    ensures var (b, width) := Piece(text, read); Decoding(buffer[write := b], was, text, read + width, write + 1)
  {
    hide Decode, Piece;
    DecodePiece(text, read);
    var (b, width) := Piece(text, read);
    var next := buffer[write := b];
    assert next[..write + 1] == buffer[..write] + [b];
    assert next[write + 1..] == buffer[write..][1..];
    assert was[write + 1..] == was[write..][1..];
  }

  lemma ReadsText(buffer: seq<Byte>, was: seq<Byte>, text: seq<Byte>, read: nat, write: nat)
    requires Decoding(buffer, was, text, read, write)
    ensures buffer[read..|text|] == text[read..] && buffer[|text|] == NUL
  {
    assert forall i :: write <= i < |buffer| ==> buffer[write..][i - write] == buffer[i];
    assert forall i :: write <= i < |buffer| ==> was[write..][i - write] == was[i];
  }

  lemma DecodingDone(buffer: seq<Byte>, was: seq<Byte>, text: seq<Byte>, write: nat)
    requires Decoding(buffer, was, text, |text|, write)
    ensures write == |Decode(text)| && buffer[..write] == Decode(text)
    ensures buffer[write + 1..] == was[write + 1..]
  {
    DecodeEmpty();
    assert text[|text|..] == [];
    assert buffer[write + 1..] == buffer[write..][1..] && was[write + 1..] == was[write..][1..];
  }

  lemma DecodingStart(was: seq<Byte>)
    requires NUL in was
    ensures Decoding(was, was, Text(was), 0, 0)
  {
    assert Text(was)[0..] == Text(was) && was[..0] == [];
  }

  /** Decodes the string a buffer holds. The write position never passes the read position, so the bytes still
      to be read are never overwritten; bytes behind the new terminator keep their old values. */
  method UrlDecode(s: array<Byte>)
    requires NUL in s[..]
    modifies s
    ensures var d := Decode(Text(old(s[..])));
            && |d| < s.Length && s[..|d|] == d && s[|d|] == NUL
            && s[|d| + 1..] == old(s[|d| + 1..])
  {
    hide Decode, HexByte, HexDigit, Text, Decoding, Escape;
    ghost var was, text := s[..], Text(s[..]);
    var read, write := 0, 0;
    DecodingStart(was);
    while s[read] != NUL
      invariant 0 <= write <= read <= |text| < s.Length
      invariant Decoding(s[..], was, text, read, write)
      decreases |text| - read
    {
      ReadsText(s[..], was, text, read, write);
      PieceInBuffer(s[..], text, read);
      DecodingStep(s[..], was, text, read, write);
      if s[read] == PLUS {
        s[write] := SPACE;
        read := read + 1;
      } else if s[read] == PERCENT && HexDigit(s[read + 1]) && HexDigit(s[read + 2]) {
        s[write] := HexByte(s[read + 1], s[read + 2]);
        read := read + 3;
      } else {
        s[write] := s[read];
        read := read + 1;
      }
      write := write + 1;
    }
    ReadsText(s[..], was, text, read, write);
    DecodingDone(s[..], was, text, write);
    s[write] := NUL;
  }

  /** As a C string the decoded buffer ends at the first NUL, so an encoded string comes back whole exactly
      when it holds none. */
  lemma TextRoundTrip(s: seq<Byte>)
    ensures Text(Decode(Encode(s)) + [0]) == s <==> 0 !in s
  {
    DecodeEncode(s);
    if NUL !in s {
      assert (s + [NUL])[..|s|] == s;
      FirstAt(s + [NUL], NUL, |s|);
    }
  }

  // ----- Looking up a field

  /** The text of one pair starts with the key, compared as it stands, and an equals sign. */
  predicate Matches(pair: seq<Byte>, key: seq<Byte>) {
    |pair| > |key| && pair[|key|] == EQUALS && pair[..|key|] == key
  }

  /** What follows the first pair of a body. */
  function RestOf(body: seq<Byte>): (rest: seq<Byte>)
    requires body != []
    ensures |rest| < |body|
  {
    var n := IndexOf(body, AMPERSAND);
    if n < |body| then body[n + 1..] else []
  }

  /** The undecoded value of the first pair with the key. */
  function Lookup(body: seq<Byte>, key: seq<Byte>): Option<seq<Byte>>
    decreases |body|
  {
    if body == [] then None
    else
      var pair := body[..IndexOf(body, AMPERSAND)];
      if Matches(pair, key) then Some(pair[|key| + 1..]) else Lookup(RestOf(body), key)
  }

  /** What a field of the given size receives: the value, cut to leave room for the terminator, then decoded. */
  function Stored(raw: seq<Byte>, size: nat): (v: seq<Byte>)
    requires size >= 1
    ensures |v| < size
  {
    Decode(if |raw| >= size then raw[..size - 1] else raw)
  }

  /** Copies part of the body's text, terminates it and decodes it in place. */
  method StoreValue(body: array<Byte>, text: seq<Byte>, from: nat, valLen: nat, out: array<Byte>, outSize: nat)
    requires text <= body[..] && from + valLen <= |text| && valLen < outSize <= out.Length && out != body
    requires NUL !in text
    modifies out
    ensures var v := Decode(text[from..from + valLen]); out[..|v|] == v && out[|v|] == NUL
    ensures out[outSize..] == old(out[outSize..])
  {
    hide Decode, Text;
    ghost var raw := text[from..from + valLen];
    forall i | 0 <= i < valLen {
      out[i] := body[from + i];
    }
    out[valLen] := NUL;
    assert out[..valLen] == raw;
    assert out[valLen] == NUL;
    TextBefore(out[..], valLen);
    assert Text(out[..]) == raw;
    assert out[outSize..] == old(out[outSize..]);
    label Copied:
    UrlDecode(out);
    assert |Decode(raw)| + 1 <= outSize;
    TailKept(out[..], old@Copied(out[..]), |Decode(raw)| + 1, outSize);
  }

  lemma TextBefore(s: seq<Byte>, n: nat)
    requires n < |s| && s[n] == NUL && NUL !in s[..n]
    ensures Text(s) == s[..n]
  {
    FirstAt(s, NUL, n);
  }

  lemma TailKept(s: seq<Byte>, was: seq<Byte>, from: nat, to: nat)
    requires from <= to <= |s| == |was| && s[from..] == was[from..]
    ensures s[to..] == was[to..]
  {
    assert s[to..] == s[from..][to - from..] && was[to..] == was[from..][to - from..];
  }

  predicate Usable(body: array?<Byte>, key: array?<Byte>, out: array?<Byte>, outSize: nat) {
    body != null && key != null && out != null && outSize > 0
  }

  /** Stores the decoded value of the first pair with the key. Without such a pair, or with an argument
      missing, nothing is written. */
  method GetValue(body: array?<Byte>, key: array?<Byte>, out: array?<Byte>, outSize: nat) returns (found: bool)
    requires body != null ==> NUL in body[..]
    requires key != null ==> NUL in key[..]
    requires out != null ==> outSize <= out.Length && out != body && out != key
    modifies out
    ensures found <==> Usable(body, key, out, outSize) && Lookup(Text(body[..]), Text(key[..])).Some?
    ensures !found && out != null ==> out[..] == old(out[..])
    ensures found ==> var v := Stored(Lookup(Text(body[..]), Text(key[..])).value, outSize);
                      out[..|v|] == v && out[|v|] == 0 && out[outSize..] == old(out[outSize..])
  {
    hide Lookup, Text, Decode, Stored, IndexOf;
    if body == null || key == null || out == null || outSize == 0 {
      return false;
    }
    var text, wanted := Text(body[..]), Text(key[..]);
    var keyLen := |wanted|;
    var p: nat := 0;
    assert text[0..] == text;
    while p < |text|
      invariant p <= |text|
      invariant Lookup(text, wanted) == Lookup(text[p..], wanted)
      invariant out[..] == old(out[..])
    {
      var pairLen := IndexOf(text[p..], AMPERSAND);
      LookupStep(text, p, pairLen, wanted);
      if pairLen > keyLen && text[p + keyLen] == EQUALS && text[p..p + keyLen] == wanted {
        var valLen := pairLen - keyLen - 1;
        if valLen >= outSize {
          valLen := outSize - 1;
        }
        StoredIs(text, p + keyLen + 1, p + pairLen, outSize);
        StoreValue(body, text, p + keyLen + 1, valLen, out, outSize);
        return true;
      }
      p := p + pairLen;
      if p < |text| && text[p] == AMPERSAND {
        p := p + 1;
      }
    }
    assert text[p..] == [];
    NoPairs(wanted);
    return false;
  }

  lemma StoredIs(text: seq<Byte>, from: nat, to: nat, size: nat)
    requires from <= to <= |text| && size >= 1
    ensures var n := if to - from >= size then size - 1 else to - from;
            Stored(text[from..to], size) == Decode(text[from..from + n])
  {
    hide Decode;
    if to - from >= size {
      assert text[from..to][..size - 1] == text[from..from + size - 1];
    }
  }

  lemma NoPairs(key: seq<Byte>)
    ensures Lookup([], key) == None
  {
  }

  /** The pair of n bytes at position p has the key. */
  predicate PairAt(text: seq<Byte>, p: nat, n: nat, key: seq<Byte>)
    requires p + n <= |text|
  {
    n > |key| && text[p + |key|] == EQUALS && text[p..p + |key|] == key
  }

  function NextPair(text: seq<Byte>, p: nat, n: nat): (next: nat)
    requires p + n <= |text|
    ensures next <= |text|
  {
    if p + n < |text| then p + n + 1 else p + n
  }

  /** One pair of the walk over a body. */
  lemma LookupStep(text: seq<Byte>, p: nat, n: nat, key: seq<Byte>)
    requires p < |text| && n == IndexOf(text[p..], AMPERSAND)
    ensures p + n <= |text| && (p + n < |text| ==> text[p + n] == AMPERSAND)
    ensures if PairAt(text, p, n, key)
            then |key| + 1 <= n && Lookup(text[p..], key) == Some(text[p + |key| + 1..p + n])
            else Lookup(text[p..], key) == Lookup(text[NextPair(text, p, n)..], key)
  {
    hide IndexOf, Matches, Lookup, RestOf, NextPair, PairAt;
    assert n < |text[p..]| ==> text[p..][n] == text[p + n];
    LookupUnfolds(text[p..], key);
    RestOfText(text, p, n);
    PairOfText(text, p, n, key);
  }

  lemma LookupUnfolds(body: seq<Byte>, key: seq<Byte>)
    requires body != []
    ensures var pair := body[..IndexOf(body, AMPERSAND)];
            Lookup(body, key) == if Matches(pair, key) then Some(pair[|key| + 1..]) else Lookup(RestOf(body), key)
  {
  }

  lemma RestOfText(text: seq<Byte>, p: nat, n: nat)
    requires p < |text| && n == IndexOf(text[p..], AMPERSAND)
    ensures RestOf(text[p..]) == text[NextPair(text, p, n)..]
  {
    hide IndexOf;
  }

  lemma PairOfText(text: seq<Byte>, p: nat, n: nat, key: seq<Byte>)
    requires p + n <= |text|
    ensures Matches(text[p..][..n], key) <==> PairAt(text, p, n, key)
    ensures PairAt(text, p, n, key) ==> n > |key| && text[p..][..n][|key| + 1..] == text[p + |key| + 1..p + n]
  {
    var pair := text[p..][..n];
    if n > |key| {
      assert pair[..|key|] == text[p..p + |key|];
      assert pair[|key|] == text[p + |key|];
      assert pair[|key| + 1..] == text[p + |key| + 1..p + n];
    }
  }

  // ----- Submitted forms

  datatype Field = Field(key: seq<Byte>, value: seq<Byte>)

  function Pair(f: Field): (p: seq<Byte>)
    ensures AMPERSAND !in p && p != []
  {
    Encode(f.key) + ['=' as Byte] + Encode(f.value)
  }

  /** The body a browser submits for the fields. */
  function FormBody(fs: seq<Field>): seq<Byte> {
    if fs == [] then []
    else if |fs| == 1 then Pair(fs[0])
    else Pair(fs[0]) + ['&' as Byte] + FormBody(fs[1..])
  }

  /** The value of the first field whose key is encoded as `key`. */
  function FirstWith(fs: seq<Field>, key: seq<Byte>): Option<seq<Byte>> {
    if fs == [] then None
    else if Encode(fs[0].key) == key then Some(fs[0].value)
    else FirstWith(fs[1..], key)
  }

  /** An encoded pair matches a key exactly when its own key is encoded so. */
  lemma PairMatches(f: Field, key: seq<Byte>)
    ensures Matches(Pair(f), key) <==> Encode(f.key) == key
    ensures Encode(f.key) == key ==> Pair(f)[|key| + 1..] == Encode(f.value)
  {
    var k, v, pair := Encode(f.key), Encode(f.value), Pair(f);
    assert pair[..|k|] == k && pair[|k|] == EQUALS && pair[|k| + 1..] == v;
    forall i | 0 <= i < |pair| && i != |k| ensures pair[i] != EQUALS {
      if i < |k| {
        assert pair[i] == k[i];
      } else {
        assert pair[i] == v[i - |k| - 1];
      }
    }
  }

  lemma FirstPair(pair: seq<Byte>, rest: seq<Byte>)
    requires AMPERSAND !in pair
    ensures IndexOf(pair, AMPERSAND) == |pair|
    ensures IndexOf(pair + [AMPERSAND] + rest, AMPERSAND) == |pair|
  {
    var all := pair + [AMPERSAND] + rest;
    assert all[..|pair|] == pair;
    FirstAt(all, AMPERSAND, |pair|);
  }

  /** Looking up a key in a submitted form finds the encoded value of the first field with that key. */
  lemma {:induction false} LookupInForm(fs: seq<Field>, key: seq<Byte>)
    ensures var first := FirstWith(fs, key);
            Lookup(FormBody(fs), key) == if first.Some? then Some(Encode(first.value)) else None
    decreases |fs|
  {
    hide Pair, Matches, Encode;
    if fs != [] {
      var pair, body := Pair(fs[0]), FormBody(fs);
      PairMatches(fs[0], key);
      if |fs| == 1 {
        FirstPair(pair, []);
        assert body[..|pair|] == pair;
        assert fs[1..] == [];
      } else {
        FirstPair(pair, FormBody(fs[1..]));
        LookupInForm(fs[1..], key);
        assert body[..|pair|] == pair && body[|pair| + 1..] == FormBody(fs[1..]);
      }
    }
  }

  predicate Plain(key: seq<Byte>) { forall i :: 0 <= i < |key| ==> Unreserved(key[i]) }

  lemma {:induction false} PlainEncodesToItself(key: seq<Byte>)
    requires Plain(key)
    ensures Encode(key) == key
    decreases |key|
  {
    if key != [] {
      PlainEncodesToItself(key[1..]);
      assert key == [key[0]] + key[1..];
    }
  }

  /** The first field with the key itself. */
  function FirstNamed(fs: seq<Field>, key: seq<Byte>): Option<seq<Byte>> {
    if fs == [] then None else if fs[0].key == key then Some(fs[0].value) else FirstNamed(fs[1..], key)
  }

  lemma {:induction false} PlainKeysCompare(fs: seq<Field>, key: seq<Byte>)
    requires Plain(key)
    ensures FirstWith(fs, key) == FirstNamed(fs, key)
    decreases |fs|
  {
    hide Encode;
    if fs != [] {
      PlainEncodesToItself(key);
      if Encode(fs[0].key) == key {
        EncodeInjective(fs[0].key, key);
      }
      PlainKeysCompare(fs[1..], key);
    }
  }

  /** The string ends in a percent sign, or in a percent sign and the digit 2. */
  predicate EndsInPercent(v: seq<Byte>) {
    (|v| >= 1 && v[|v| - 1] == PERCENT) || (|v| >= 2 && v[|v| - 2] == PERCENT && v[|v| - 1] == 50)
  }

  /** A cut through the escape of a final percent sign, or of the one before a final 2, that leaves the characters
      it stands for. */
  predicate LuckyCut(v: seq<Byte>, k: nat) { |Encode(v)| == k + 2 && EndsInPercent(v) }

  lemma PartialEscape(b: Byte, k: nat)
    requires k < |EncodeByte(b)|
    ensures EncodeByte(b)[..k] == (if k == 0 then [] else if k == 1 then [PERCENT] else [PERCENT, HexCharacter(b / 16)])
    ensures Decode(EncodeByte(b)[..k]) == EncodeByte(b)[..k]
    ensures k > 0 ==> |EncodeByte(b)| == 3
  {
    var e := EncodeByte(b)[..k];
    if k >= 1 {
      assert e[0] == PERCENT;
      assert !Escape(e);
      if k == 2 {
        assert e[1..][1..] == [];
        assert e[1] != PLUS && !Escape(e[1..]);
      } else {
        assert e[1..] == [];
      }
    }
  }

  lemma EncodedLength(v: seq<Byte>)
    ensures |Encode(v)| >= |v|
    ensures v != [] ==> |Encode(v)| == |EncodeByte(v[0])| + |Encode(v[1..])|
  {
  }

  lemma EncodedPercent()
    ensures EncodeByte(PERCENT) == [PERCENT, 50, 53] && EncodeByte(50) == [50]
  {
  }

  lemma HexCharacterIs(b: Byte)
    ensures HexCharacter(b / 16) == 50 <==> b / 16 == 2
  {
  }

  /** The decoded first k bytes of an encoding are the string itself exactly when the encoding has no more, or
      when the cut is a lucky one. */
  lemma {:induction false} CutDecodes(v: seq<Byte>, k: nat)
    requires k <= |Encode(v)|
    ensures Decode(Encode(v)[..k]) == v <==> k == |Encode(v)| || LuckyCut(v, k)
    decreases |v|
  {
    hide EncodeByte, Decode, EndsInPercent;
    if v == [] {
      DecodeEmpty();
      NoPercent();
    } else {
      var e, rest := EncodeByte(v[0]), Encode(v[1..]);
      if k >= |e| {
        CutDecodes(v[1..], k - |e|);
        assert Encode(v)[..k] == e + rest[..k - |e|];
        DecodeEncodedByte(v[0], rest[..k - |e|]);
        assert v == [v[0]] + v[1..];
        EndsWhereRestDoes(v, k - |e|);
      } else {
        assert Encode(v)[..k] == e[..k];
        CutFirst(v, k);
      }
    }
  }

  lemma NoPercent()
    ensures !EndsInPercent([])
  {
  }

  /** A lucky cut behind the first character is one of the rest. */
  lemma EndsWhereRestDoes(v: seq<Byte>, k: nat)
    requires v != [] && k <= |Encode(v[1..])|
    ensures LuckyCut(v, |EncodeByte(v[0])| + k) <==> LuckyCut(v[1..], k)
  {
    hide EncodeByte;
    EncodedLength(v);
    if |v| <= 2 {
      EncodedPercent();
      ShortEncodings(v[1..]);
    }
  }

  lemma ShortEncodings(w: seq<Byte>)
    requires |w| <= 1
    ensures |Encode(w)| == if w == [] then 0 else |EncodeByte(w[0])|
    ensures |Encode(w)| <= 3
  {
    if w != [] {
      assert w[1..] == [];
    }
  }

  lemma {:induction false} EncodedMember(v: seq<Byte>, i: nat)
    requires i < |v|
    ensures |Encode(v)| >= |EncodeByte(v[i])| + |v| - 1
    decreases |v|
  {
    hide EncodeByte;
    EncodedLength(v);
    EncodedLength(v[1..]);
    if i > 0 {
      EncodedMember(v[1..], i - 1);
    }
  }

  lemma PercentIsLong(v: seq<Byte>)
    ensures EndsInPercent(v) ==> |Encode(v)| >= |v| + 2
  {
    hide EncodeByte, Encode;
    EncodedPercent();
    if EndsInPercent(v) {
      EncodedMember(v, if v[|v| - 1] == PERCENT then |v| - 1 else |v| - 2);
    }
  }

  /** A cut inside the first character's escape. */
  lemma CutFirst(v: seq<Byte>, k: nat)
    requires v != [] && k < |EncodeByte(v[0])|
    ensures Decode(EncodeByte(v[0])[..k]) == v <==> LuckyCut(v, k)
  {
    hide EncodeByte, Decode, Encode, HexCharacter;
    PartialEscape(v[0], k);
    EncodedLength(v);
    EncodedLength(v[1..]);
    PercentIsLong(v);
    EncodedPercent();
    HexCharacterIs(v[0]);
    if |v| <= 2 {
      ShortEncodings(v[1..]);
    }
    if k == 1 {
      assert v == [PERCENT] <==> |v| == 1 && v[0] == PERCENT;
    } else if k == 2 {
      assert v == [PERCENT, HexCharacter(v[0] / 16)] <==> |v| == 2 && v[0] == PERCENT && v[1] == HexCharacter(v[0] / 16);
    }
  }

  /** For a key of unreserved characters, such as every key the portal asks for, the stored value is the value
      of the first field with that key exactly when its encoding fits, or when the cut is a lucky one; otherwise
      the lookup succeeds all the same with another value. */
  lemma FieldRoundTrip(fs: seq<Field>, key: seq<Byte>, size: nat)
    requires Plain(key) && size >= 1
    ensures var first, raw := FirstNamed(fs, key), Lookup(FormBody(fs), key);
            && (first.Some? <==> raw.Some?)
            && (first.Some? ==>
                  (Stored(raw.value, size) == first.value <==>
                     |Encode(first.value)| < size || LuckyCut(first.value, size - 1)))
  {
    hide Encode, Decode, FirstNamed, FirstWith, Lookup, EndsInPercent;
    PlainKeysCompare(fs, key);
    LookupInForm(fs, key);
    if FirstNamed(fs, key).Some? {
      var v := FirstNamed(fs, key).value;
      DecodeEncode(v);
      if |Encode(v)| >= size {
        CutDecodes(v, size - 1);
      }
    }
  }

  /** A password that is changed silently: a NUL-free value whose last escape is cut. */
  lemma CutChangesValue()
    ensures Stored(Encode([AMPERSAND]), 3) == [PERCENT, 50]
  {
    assert EncodeByte(AMPERSAND) == [PERCENT, 50, 54];
    PartialEscape(AMPERSAND, 2);
    assert [AMPERSAND][1..] == [];
    assert Encode([AMPERSAND]) == [PERCENT, 50, 54];
  }
}
