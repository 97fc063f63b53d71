// The message envelope of firmware_esp32/main/ac_gree.c: pad, encrypt block by block, encode as
// base64, and the reverse.  The block cipher and the base64 coder are parameters.
module Envelope {
  import opened Buffers
  import opened Wrappers

  type Byte = n: int | 0 <= n < 0x100

  // The two halves of a library that this model only knows by its laws.
  datatype Codec = Codec(
    encrypt: seq<Byte> -> seq<Byte>, decrypt: seq<Byte> -> seq<Byte>,
    encode: seq<Byte> -> seq<Byte>, decode: seq<Byte> -> Option<seq<Byte>>)

  // Decryption inverts encryption on blocks, decoding inverts encoding, and base64 text has four
  // characters for every three bytes or part of them.
  ghost predicate Lawful(c: Codec) {
    && (forall b: seq<Byte> :: |b| == 16 ==> |c.encrypt(b)| == 16 && c.decrypt(c.encrypt(b)) == b)
    && (forall b: seq<Byte> :: |b| == 16 ==> |c.decrypt(b)| == 16)
    && (forall m: seq<Byte> :: |c.encode(m)| == Base64Length(|m|) && c.decode(c.encode(m)) == Some(m))
  }

  function Base64Length(n: nat): nat {
    (n + 2) / 3 * 4
  }

  // ---------- sizes ----------

  function PaddedLength(n: nat): (p: nat)
    ensures p % 16 == 0
  {
    (n / 16 + 1) * 16
  }

  // get_output_length, with the product evaluated exactly and truncated.
  function OutputLength(n: nat): int {
    (((PaddedLength(n) / 3 + 1) * 3) as real * 1.33333 + 3.0).Floor
  }

  lemma OutputLengthForm(k: nat)
    ensures (((k + 1) * 3) as real * 1.33333 + 3.0).Floor == 4 * (k + 1) + 3 - (k + 1 + 99999) / 100000
  {
    var m, d := k + 1, (k + 1 + 99999) / 100000;
    var r := (m * 3) as real * 1.33333 + 3.0;
    assert r == (4 * m + 3) as real - m as real / 100000.0;
    assert 100000 * (d - 1) < m <= 100000 * d;
    assert (d - 1) as real < m as real / 100000.0 <= d as real;
    assert (4 * m + 3 - d) as real <= r < (4 * m + 4 - d) as real;
  }

  // The buffer of the computed size holds the base64 text and its terminator if and only if the
  // message is not too long; the bound is smaller when the padded length is no multiple of three.
  lemma OutputFitsIff(n: nat)
    ensures var p := PaddedLength(n);
            Base64Length(p) + 1 <= OutputLength(n) <==>
            p / 3 + 1 <= if p % 3 == 0 then 600000 else 200000
  {
    var p := PaddedLength(n);
    var k := p / 3;
    OutputLengthForm(k);
    if p % 3 == 0 {
      assert p == 3 * k && (p + 2) / 3 == k;
    } else {
      assert (p + 2) / 3 == k + 1;
    }
  }

  // ---------- padding ----------

  // Padding as in section 6.3 of RFC 5652 with blocks of 16: every added byte is the number of
  // added bytes, and at least one is added.
  function PadLength(n: nat): (k: nat)
    ensures 1 <= k <= 16
  {
    16 - n % 16
  }

  function Repeat(b: Byte, n: nat): (r: seq<Byte>)
    ensures |r| == n && forall i :: 0 <= i < n ==> r[i] == b
  {
    if n == 0 then [] else [b] + Repeat(b, n - 1)
  }

  function Pad(m: seq<Byte>): (p: seq<Byte>)
    ensures |p| == PaddedLength(|m|)
  {
    m + Repeat(PadLength(|m|), PadLength(|m|))
  }

  // The padded message is the only one that starts with the message, is extended to whole blocks by
  // one to sixteen bytes, and says in each of them how many they are.
  lemma PadIff(m: seq<Byte>, p: seq<Byte>)
    ensures p == Pad(m) <==>
              && |p| % 16 == 0 && |m| < |p| <= |m| + 16 && p[..|m|] == m
              && forall i :: |m| <= i < |p| ==> p[i] == |p| - |m|
  {
    var k := PadLength(|m|);
    assert PaddedLength(|m|) == |m| + k;
    assert Pad(m)[..|m|] == m;
    assert forall i :: |m| <= i < |m| + k ==> Pad(m)[i] == Repeat(k, k)[i - |m|];
    if |p| % 16 == 0 && |m| < |p| <= |m| + 16 {
      NextMultiple(|m|, |p|);
      if p[..|m|] == m && forall i :: |m| <= i < |p| ==> p[i] == |p| - |m| {
        assert p == p[..|m|] + p[|m|..];
        assert p[|m|..] == Repeat(k, k);
      }
    }
  }

  lemma NextMultiple(n: nat, p: nat)
    requires p % 16 == 0 && n < p <= n + 16
    ensures p == PaddedLength(n)
  {
  }

  // ---------- blocks ----------

  function MapBlocks(f: seq<Byte> -> seq<Byte>, m: seq<Byte>): seq<Byte>
    requires |m| % 16 == 0
    decreases |m|
  {
    if m == [] then [] else MapBlocks(f, m[..|m| - 16]) + f(m[|m| - 16..])
  }

  lemma {:induction false} MapLength(f: seq<Byte> -> seq<Byte>, m: seq<Byte>)
    requires |m| % 16 == 0 && forall b: seq<Byte> :: |b| == 16 ==> |f(b)| == 16
    ensures |MapBlocks(f, m)| == |m|
    decreases |m|
  {
    if m != [] {
      MapLength(f, m[..|m| - 16]);
    }
  }

  lemma MapAppend(f: seq<Byte> -> seq<Byte>, front: seq<Byte>, last: seq<Byte>)
    requires |front| % 16 == 0 && |last| == 16
    ensures MapBlocks(f, front + last) == MapBlocks(f, front) + f(last)
  {
    var m := front + last;
    assert m[..|m| - 16] == front && m[|m| - 16..] == last;
  }

  lemma {:induction false} DecryptBlocksEncrypt(c: Codec, m: seq<Byte>)
    requires Lawful(c) && |m| % 16 == 0
    ensures |MapBlocks(c.encrypt, m)| == |m|
    ensures MapBlocks(c.decrypt, MapBlocks(c.encrypt, m)) == m
    decreases |m|
  {
    if m != [] {
      var front, last := m[..|m| - 16], m[|m| - 16..];
      assert m == front + last;
      DecryptBlocksEncrypt(c, front);
      BlockLaw(c, last);
      LastBlock(c.encrypt, c.decrypt, front, last);
    }
  }

  lemma LastBlock(f: seq<Byte> -> seq<Byte>, g: seq<Byte> -> seq<Byte>, front: seq<Byte>, last: seq<Byte>)
    requires |front| % 16 == 0 && |last| == 16 && |f(last)| == 16 && g(f(last)) == last
    requires |MapBlocks(f, front)| == |front| && MapBlocks(g, MapBlocks(f, front)) == front
    ensures |MapBlocks(f, front + last)| == |front| + 16
    ensures MapBlocks(g, MapBlocks(f, front + last)) == front + last
  {
    MapAppend(f, front, last);
    MapAppend(g, MapBlocks(f, front), f(last));
  }

  lemma BlockLaw(c: Codec, b: seq<Byte>)
    requires Lawful(c) && |b| == 16
    ensures |c.encrypt(b)| == 16 && c.decrypt(c.encrypt(b)) == b
  {
  }

  lemma BlockNext(f: seq<Byte> -> seq<Byte>, m: seq<Byte>, at: nat)
    requires at % 16 == 0 && at + 16 <= |m|
    ensures MapBlocks(f, m[..at + 16]) == MapBlocks(f, m[..at]) + f(m[at..at + 16])
  {
    var p := m[..at + 16];
    assert p[..|p| - 16] == m[..at] && p[|p| - 16..] == m[at..at + 16];
  }

  // ---------- the envelope ----------

  function Seal(c: Codec, m: seq<Byte>): seq<Byte> {
    c.encode(MapBlocks(c.encrypt, Pad(m)))
  }

  // Rejected: a failure return.  OutOfBounds: the padding byte is read or cleared outside the buffer.
  datatype Opened = Rejected | OutOfBounds | Plain(text: seq<Byte>)

  // What ac_decrypt leaves in the output for a text it accepts.  The last byte alone decides how
  // much is cleared; the padding itself is not checked.
  function Open(c: Codec, text: seq<Byte>, room: nat): Opened {
    match c.decode(text)
    case None => Rejected
    case Some(e) =>
      if |e| % 16 != 0 || room < |e| then Rejected
      else Unpad(MapBlocks(c.decrypt, e))
  }

  function Unpad(p: seq<Byte>): Opened {
    if |p| == 0 || p[|p| - 1] > |p| then OutOfBounds
    else
      var k := p[|p| - 1];
      Plain(p[..|p| - k] + Repeat(0, k))
  }

  // A text is rejected if and only if it is no base64 text of whole blocks that fit the room; the
  // padding byte is out of bounds if and only if there is no block or it exceeds the length.
  lemma OpenIff(c: Codec, text: seq<Byte>, room: nat)
    requires Lawful(c)
    ensures var (e, r) := (c.decode(text), Open(c, text, room));
            && (r.Rejected? <==> e.None? || |e.value| % 16 != 0 || |e.value| > room)
            && (!r.Rejected? ==> |MapBlocks(c.decrypt, e.value)| == |e.value|)
            && (r.OutOfBounds? <==>
                  !r.Rejected? && (e == Some([]) || MapBlocks(c.decrypt, e.value)[|e.value| - 1] > |e.value|))
            && (r.Plain? ==> |r.text| == |e.value|)
  {
    var e := c.decode(text);
    if e.Some? && |e.value| % 16 == 0 {
      MapLength(c.decrypt, e.value);
    }
  }

  // A sealed message opens to itself, followed by zeros in place of the padding.
  lemma OpenSeal(c: Codec, m: seq<Byte>, room: nat)
    requires Lawful(c) && room >= PaddedLength(|m|)
    ensures Open(c, Seal(c, m), room) == Plain(m + Repeat(0, PadLength(|m|)))
  {
    var p := Pad(m);
    DecryptBlocksEncrypt(c, p);
    assert p[..|p| - PadLength(|m|)] == m;
  }

  // The text up to its first zero.
  function CString(s: seq<Byte>): seq<Byte> {
    if s == [] || s[0] == 0 then [] else [s[0]] + CString(s[1..])
  }

  lemma {:induction false} CStringOf(m: seq<Byte>, rest: seq<Byte>)
    requires 0 !in m && rest != [] && rest[0] == 0
    ensures CString(m + rest) == m
  {
    if m == [] {
      assert m + rest == rest;
    } else {
      assert (m + rest)[1..] == m[1..] + rest;
      CStringOf(m[1..], rest);
    }
  }

  // Read as a C string, an opened message is exactly the text that was sealed.
  lemma OpenSealText(c: Codec, m: seq<Byte>, room: nat)
    requires Lawful(c) && room >= PaddedLength(|m|) && 0 !in m
    ensures Open(c, Seal(c, m), room).Plain? && CString(Open(c, Seal(c, m), room).text) == m
  {
    OpenSeal(c, m, room);
    CStringOf(m, Repeat(0, PadLength(|m|)));
  }

  // ---------- the buffers ----------

  // memcpy of the message and memset of the padding into whole blocks.
  method PadInto(m: seq<Byte>) returns (buffer: array<Byte>)
    ensures fresh(buffer) && buffer[..] == Pad(m)
  {
    var numberBlocks, padding := |m| / 16 + 1, 16 - |m| % 16;
    buffer := new Byte[numberBlocks * 16](_ => 0);
    for i := 0 to |m|
      invariant buffer[..i] == m[..i]
    {
      buffer[i] := m[i];
    }
    var at := (numberBlocks - 1) * 16 + |m| % 16;
    for i := 0 to padding
      invariant buffer[..at] == m
      invariant forall j :: at <= j < at + i ==> buffer[j] == padding
    {
      buffer[at + i] := padding;
    }
    assert buffer[..] == Pad(m);
  }

  lemma SpliceNext(before: seq<Byte>, part: seq<Byte>, block: seq<Byte>)
    requires |part| + |block| <= |before|
    ensures Splice(Splice(before, 0, part), |part|, block) == Splice(before, 0, part + block)
  {
    var mid := Splice(before, 0, part);
    assert mid[..|part|] == part;
    assert mid[|part| + |block|..] == before[|part| + |block|..];
  }

  method WriteBlock(output: array<Byte>, at: nat, block: seq<Byte>)
    requires at + |block| <= output.Length
    modifies output
    ensures output[..] == Splice(old(output[..]), at, block)
  {
    ghost var before := output[..];
    for j := 0 to |block|
      invariant forall i :: at <= i < at + j ==> output[i] == block[i - at]
      invariant forall i :: 0 <= i < output.Length && !(at <= i < at + j) ==> output[i] == before[i]
    {
      output[at + j] := block[j];
    }
    Spliced(before, output[..], at, block);
  }

  // The first part of the input is done, into the front of the output.
  ghost predicate Crypted(f: seq<Byte> -> seq<Byte>, done: seq<Byte>, before: seq<Byte>, output: seq<Byte>)
    requires |done| % 16 == 0
  {
    && |done| <= |before| && |MapBlocks(f, done)| == |done|
    && output == Splice(before, 0, MapBlocks(f, done))
  }

  // The loop over blocks, into the front of the output.
  method CryptBlocks(f: seq<Byte> -> seq<Byte>, input: seq<Byte>, output: array<Byte>)
    requires |input| % 16 == 0 && |input| <= output.Length
    requires forall b: seq<Byte> :: |b| == 16 ==> |f(b)| == 16
    modifies output
    ensures |MapBlocks(f, input)| == |input|
    ensures output[..] == Splice(old(output[..]), 0, MapBlocks(f, input))
  {
    var numberBlocks, at := |input| / 16, 0;
    ghost var before := output[..];
    NothingCrypted(f, before);
    for i := 0 to numberBlocks
      invariant at == 16 * i && at % 16 == 0 && at <= |input|
      invariant Crypted(f, input[..at], before, output[..])
    {
      CryptBlock(f, input, output, at, before);
      at := at + 16;
    }
    assert input[..at] == input;
  }

  lemma NothingCrypted(f: seq<Byte> -> seq<Byte>, before: seq<Byte>)
    ensures Crypted(f, [], before, before)
  {
  }

  method CryptBlock(f: seq<Byte> -> seq<Byte>, input: seq<Byte>, output: array<Byte>, at: nat, ghost before: seq<Byte>)
    requires at % 16 == 0 && at + 16 <= |input| <= |before|
    requires forall b: seq<Byte> :: |b| == 16 ==> |f(b)| == 16
    requires Crypted(f, input[..at], before, output[..])
    modifies output
    ensures Crypted(f, input[..at + 16], before, output[..])
  {
    BlockNext(f, input, at);
    ghost var done := MapBlocks(f, input[..at]);
    var block := f(input[at..at + 16]);
    SpliceNext(before, done, block);
    WriteBlock(output, at, block);
  }

  lemma SealLength(c: Codec, m: seq<Byte>)
    requires Lawful(c)
    ensures |Seal(c, m)| == Base64Length(PaddedLength(|m|))
  {
    DecryptBlocksEncrypt(c, Pad(m));
  }

  // Success and the output buffer of an encryption.  The encoder refuses a buffer without room for
  // the terminator, which is only logged.
  function Encrypted(c: Codec, keyOk: bool, m: seq<Byte>, before: seq<Byte>, outLen: nat): (bool, seq<Byte>)
    requires outLen <= |before|
  {
    if outLen < OutputLength(|m|) || !keyOk then (false, before)
    else (true, Encoded(Seal(c, m), before, outLen))
  }

  function Encoded(text: seq<Byte>, before: seq<Byte>, outLen: nat): seq<Byte>
    requires outLen <= |before|
  {
    if |text| + 1 <= outLen then Splice(before, 0, text + [0]) else before
  }

  // An encryption succeeds if and only if the key is taken and the buffer has the computed size, and
  // otherwise leaves the buffer alone.  Success does not say that anything was stored: text that
  // leaves no room for its terminator is dropped without an error.
  lemma EncryptionStores(c: Codec, keyOk: bool, m: seq<Byte>, before: seq<Byte>, outLen: nat)
    requires Lawful(c) && outLen <= |before|
    ensures var (ok, out) := Encrypted(c, keyOk, m, before, outLen); var n := Base64Length(PaddedLength(|m|));
            && (ok <==> keyOk && OutputLength(|m|) <= outLen)
            && |out| == |before|
            && (ok && n + 1 <= outLen ==> out[..n] == Seal(c, m) && out[n] == 0 && out[n + 1..] == before[n + 1..])
            && (!ok || n + 1 > outLen ==> out == before)
  {
    SealLength(c, m);
    EncodedText(Seal(c, m), before, outLen);
  }

  lemma EncodedText(text: seq<Byte>, before: seq<Byte>, outLen: nat)
    requires outLen <= |before|
    ensures var (out, n) := (Encoded(text, before, outLen), |text|);
            && |out| == |before|
            && (n + 1 <= outLen ==> out[..n] == text && out[n] == 0 && out[n + 1..] == before[n + 1..])
            && (n + 1 > outLen ==> out == before)
  {
    if |text| + 1 <= outLen {
      var out := Splice(before, 0, text + [0]);
      assert forall i :: 0 <= i < |text| ==> out[i] == (text + [0])[i];
      assert out[..|text|] == text;
    }
  }

  // ac_encrypt.
  method Encrypt(c: Codec, keyOk: bool, m: seq<Byte>, output: array<Byte>, outLen: nat) returns (ok: bool)
    requires Lawful(c) && outLen <= output.Length
    modifies output
    ensures (ok, output[..]) == Encrypted(c, keyOk, m, old(output[..]), outLen)
  {
    if outLen < OutputLength(|m|) || !keyOk {
      return false;
    }
    SealInto(c, m, output, outLen);
    return true;
  }

  // The padded message, encrypted into a buffer of its own.
  method EncryptBlocks(c: Codec, m: seq<Byte>) returns (cipher: seq<Byte>)
    requires Lawful(c)
    ensures cipher == MapBlocks(c.encrypt, Pad(m))
  {
    var input := PadInto(m);
    var buffer := new Byte[input.Length];
    ghost var before := buffer[..];
    CryptBlocks(c.encrypt, input[..], buffer);
    WholeBuffer(before, MapBlocks(c.encrypt, Pad(m)));
    cipher := buffer[..];
  }

  lemma WholeBuffer(before: seq<Byte>, part: seq<Byte>)
    requires |part| == |before|
    ensures Splice(before, 0, part) == part
  {
  }

  // The part of ac_encrypt behind its checks.
  method SealInto(c: Codec, m: seq<Byte>, output: array<Byte>, outLen: nat)
    requires Lawful(c) && outLen <= output.Length
    modifies output
    ensures output[..] == Encoded(Seal(c, m), old(output[..]), outLen)
  {
    var cipher := EncryptBlocks(c, m);
    var text := c.encode(cipher);
    if |text| + 1 <= outLen {
      WriteBlock(output, 0, text + [0]);
    }
  }

  // ac_decrypt.
  method Decrypt(c: Codec, keyOk: bool, text: seq<Byte>, output: array<Byte>, outLen: nat) returns (r: Opened)
    requires Lawful(c) && outLen <= output.Length
    modifies output
    ensures r == if keyOk then Open(c, text, outLen) else Rejected
    ensures r.Rejected? ==> output[..] == old(output[..])
    ensures r.Plain? ==> |r.text| <= outLen && output[..] == Splice(old(output[..]), 0, r.text)
  {
    var decoded := c.decode(text);
    if decoded.None? || |decoded.value| % 16 != 0 {
      return Rejected;
    }
    if outLen < |decoded.value| || !keyOk {
      return Rejected;
    }
    r := OpenInto(c, decoded.value, output);
  }

  // The part of ac_decrypt behind its checks.
  method OpenInto(c: Codec, e: seq<Byte>, output: array<Byte>) returns (r: Opened)
    requires Lawful(c) && |e| % 16 == 0 && |e| <= output.Length
    modifies output
    ensures r == Unpad(MapBlocks(c.decrypt, e)) && !r.Rejected?
    ensures r.Plain? ==> |r.text| <= |e| && output[..] == Splice(old(output[..]), 0, r.text)
  {
    ghost var before, p := output[..], MapBlocks(c.decrypt, e);
    CryptBlocks(c.decrypt, e, output);
    if |e| == 0 {
      return OutOfBounds;
    }
    assert output[..][|e| - 1] == p[|e| - 1];
    var k := output[|e| - 1];
    if k > |e| {
      return OutOfBounds;
    }
    WriteBlock(output, |e| - k, Repeat(0, k));
    Cleared(before, p, k, output[..]);
    r := Plain(output[..|e|]);
  }

  lemma Cleared(before: seq<Byte>, p: seq<Byte>, k: nat, after: seq<Byte>)
    requires k <= |p| <= |before| && after == Splice(Splice(before, 0, p), |p| - k, Repeat(0, k))
    ensures after[..|p|] == p[..|p| - k] + Repeat(0, k)
    ensures after == Splice(before, 0, after[..|p|])
  {
    var mid := Splice(before, 0, p);
    assert mid[..|p| - k] == p[..|p| - k];
    assert mid[|p|..] == before[|p|..];
    assert after == p[..|p| - k] + Repeat(0, k) + before[|p|..];
  }

  // The whole trip: a message of at most the length that the buffer of the computed size can take
  // is stored, with its terminator, and a decryption of the stored text into a buffer of the padded
  // length gives the message and zeros.
  lemma RoundTrip(c: Codec, m: seq<Byte>, before: seq<Byte>, room: nat)
    requires Lawful(c) && |before| == OutputLength(|m|) && room >= PaddedLength(|m|)
    requires var p := PaddedLength(|m|); p / 3 + 1 <= if p % 3 == 0 then 600000 else 200000
    ensures var (ok, out) := Encrypted(c, true, m, before, |before|);
            var n := Base64Length(PaddedLength(|m|));
            && ok && n < |out| && out[n] == 0
            && Open(c, out[..n], room) == Plain(m + Repeat(0, PadLength(|m|)))
  {
    OutputFitsIff(|m|);
    SealLength(c, m);
    OpenSeal(c, m, room);
    Stored(Seal(c, m), before);
  }

  lemma Stored(text: seq<Byte>, before: seq<Byte>)
    requires |text| + 1 <= |before|
    ensures var out := Encoded(text, before, |before|);
            |text| < |out| && out[|text|] == 0 && out[..|text|] == text
  {
  }
}
