/** Dropping control and spoofing characters from text shown in the list, and its fast paths. */
module DisplayText {
  import opened Basics

  /** A Unicode scalar value, the `char` of the source. */
  type Scalar = c: bv32 | c < 0xD800 || 0xE000 <= c < 0x11_0000

  type Text = seq<Scalar>

  // ---------------------------------------------------------------- the plain filter

  /** The general category Cc: C0, DEL and C1. */
  predicate IsControl(c: Scalar) {
    c < 0x20 || 0x7F <= c <= 0x9F
  }

  /** Format characters, bidirectional overrides and other invisible characters. */
  predicate IsFormat(c: Scalar) {
    || c == 0xAD
    || 0x600 <= c <= 0x605
    || c == 0x61C
    || c == 0x6DD
    || c == 0x70F
    || 0x890 <= c <= 0x891
    || c == 0x8E2
    || c == 0x180E
    || 0x200B <= c <= 0x200F
    || 0x2028 <= c <= 0x202E
    || 0x2060 <= c <= 0x2064
    || 0x2066 <= c <= 0x206F
    || c == 0xFEFF
    || 0xFFF9 <= c <= 0xFFFB
    || c == 0x110BD
    || c == 0x110CD
    || 0x13430 <= c <= 0x1343F
    || 0x1BCA0 <= c <= 0x1BCA3
    || 0x1D173 <= c <= 0x1D17A
    || c == 0xE0001
    || 0xE0020 <= c <= 0xE007F
  }

  predicate IsDisplaySafe(c: Scalar) {
    !IsControl(c) && !IsFormat(c)
  }

  /** The plain filter: the safe characters of the text, in order. */
  function Kept(text: Text): Text {
    Retain(text, IsDisplaySafe)
  }

  lemma KeptIsSafe(text: Text)
    ensures forall i :: 0 <= i < |Kept(text)| ==> IsDisplaySafe(Kept(text)[i])
  {
    RetainKeeps(text, IsDisplaySafe);
  }

  /** Text can be cleaned piece by piece. */
  lemma KeptAppend(a: Text, b: Text)
    ensures Kept(a + b) == Kept(a) + Kept(b)
  {
    RetainAppend(a, b, IsDisplaySafe);
  }

  lemma KeptIsIdempotent(text: Text)
    ensures Kept(Kept(text)) == Kept(text)
  {
    KeptIsSafe(text);
    RetainAll(Kept(text), IsDisplaySafe);
  }

  // ---------------------------------------------------------------- eight bytes at a time

  predicate IsAsciiDisplaySafe(b: bv8) {
    b >= 0x20 && b != 0x7f
  }

  predicate SwarHasAsciiControl(n: bv64) {
    var lessThan32 := (n - 0x2020_2020_2020_2020) & !n & 0x8080_8080_8080_8080;
    var xorDel := n ^ 0x7f7f_7f7f_7f7f_7f7f;
    var isDel := (xorDel - 0x0101_0101_0101_0101) & !xorDel & 0x8080_8080_8080_8080;
    (lessThan32 | isDel) != 0
  }

  function Word(b0: bv8, b1: bv8, b2: bv8, b3: bv8, b4: bv8, b5: bv8, b6: bv8, b7: bv8): bv64 {
    (b0 as bv64) | ((b1 as bv64) << 8) | ((b2 as bv64) << 16) | ((b3 as bv64) << 24)
    | ((b4 as bv64) << 32) | ((b5 as bv64) << 40) | ((b6 as bv64) << 48) | ((b7 as bv64) << 56)
  }

  /** The test on a word is exact although both subtractions borrow across bytes. */
  lemma SwarIsExact(b0: bv8, b1: bv8, b2: bv8, b3: bv8, b4: bv8, b5: bv8, b6: bv8, b7: bv8)
    ensures SwarHasAsciiControl(Word(b0, b1, b2, b3, b4, b5, b6, b7)) <==>
              || !IsAsciiDisplaySafe(b0) || !IsAsciiDisplaySafe(b1) || !IsAsciiDisplaySafe(b2)
              || !IsAsciiDisplaySafe(b3) || !IsAsciiDisplaySafe(b4) || !IsAsciiDisplaySafe(b5)
              || !IsAsciiDisplaySafe(b6) || !IsAsciiDisplaySafe(b7)
  {
  }

  /** Every word is eight bytes, so the statement above is about every word. */
  lemma EveryWordIsBytes(n: bv64)
    ensures n == Word((n & 0xff) as bv8, ((n >> 8) & 0xff) as bv8, ((n >> 16) & 0xff) as bv8,
                      ((n >> 24) & 0xff) as bv8, ((n >> 32) & 0xff) as bv8, ((n >> 40) & 0xff) as bv8,
                      ((n >> 48) & 0xff) as bv8, ((n >> 56) & 0xff) as bv8)
  {
  }

  /** A chunk of eight bytes read as a word in the machine's own byte order. */
  function NativeWord(chunk: seq<bv8>, littleEndian: bool): bv64
    requires |chunk| == 8
  {
    if littleEndian then Word(chunk[0], chunk[1], chunk[2], chunk[3], chunk[4], chunk[5], chunk[6], chunk[7])
    else Word(chunk[7], chunk[6], chunk[5], chunk[4], chunk[3], chunk[2], chunk[1], chunk[0])
  }

  predicate AllSafe(bytes: seq<bv8>) {
    forall i :: 0 <= i < |bytes| ==> IsAsciiDisplaySafe(bytes[i])
  }

  lemma ChunkIsExact(chunk: seq<bv8>, littleEndian: bool)
    requires |chunk| == 8
    ensures SwarHasAsciiControl(NativeWord(chunk, littleEndian)) <==> !AllSafe(chunk)
  {
    hide SwarHasAsciiControl, Word, IsAsciiDisplaySafe;
    if littleEndian {
      SwarIsExact(chunk[0], chunk[1], chunk[2], chunk[3], chunk[4], chunk[5], chunk[6], chunk[7]);
    } else {
      SwarIsExact(chunk[7], chunk[6], chunk[5], chunk[4], chunk[3], chunk[2], chunk[1], chunk[0]);
    }
  }

  method ContainsAsciiControl(bytes: seq<bv8>, littleEndian: bool) returns (found: bool)
    ensures found <==> !AllSafe(bytes)
  {
    hide SwarHasAsciiControl, Word, NativeWord, IsAsciiDisplaySafe;
    var i := 0;
    while i + 8 <= |bytes|
      invariant i <= |bytes| && AllSafe(bytes[..i])
    {
      var chunk := bytes[i..i + 8];
      ChunkIsExact(chunk, littleEndian);
      if SwarHasAsciiControl(NativeWord(chunk, littleEndian)) {
        var k :| 0 <= k < 8 && !IsAsciiDisplaySafe(chunk[k]);
        assert chunk[k] == bytes[i + k];
        return true;
      }
      assert bytes[..i + 8] == bytes[..i] + chunk;
      i := i + 8;
    }
    found := exists k :: i <= k < |bytes| && !IsAsciiDisplaySafe(bytes[k]);
    assert forall k :: 0 <= k < i ==> bytes[..i][k] == bytes[k];
  }

  // ---------------------------------------------------------------- the ASCII paths

  predicate IsAscii(text: Text) {
    forall i :: 0 <= i < |text| ==> text[i] < 0x80
  }

  function Bytes(text: Text): (bytes: seq<bv8>)
    requires IsAscii(text)
    ensures |bytes| == |text| && forall i :: 0 <= i < |text| ==> bytes[i] == text[i] as bv8
  {
    if text == [] then [] else [text[0] as bv8] + Bytes(text[1..])
  }

  predicate AreAscii(bytes: seq<bv8>) {
    forall i :: 0 <= i < |bytes| ==> bytes[i] < 0x80
  }

  function FromAscii(bytes: seq<bv8>): (text: Text)
    requires AreAscii(bytes)
    ensures |text| == |bytes| && forall i :: 0 <= i < |bytes| ==> text[i] == bytes[i] as Scalar
  {
    if bytes == [] then [] else [bytes[0] as Scalar] + FromAscii(bytes[1..])
  }

  /** Below U+0080 the byte test and the character test agree. */
  lemma SafeOnAscii(c: Scalar)
    requires c < 0x80
    ensures IsAsciiDisplaySafe(c as bv8) <==> IsDisplaySafe(c)
    ensures (c as bv8) < 0x80 && (c as bv8) as bv32 == c
  {
  }

  lemma {:induction false} AsciiFilter(text: Text)
    requires IsAscii(text)
    ensures AreAscii(Retain(Bytes(text), IsAsciiDisplaySafe))
    ensures FromAscii(Retain(Bytes(text), IsAsciiDisplaySafe)) == Kept(text)
  {
    hide IsDisplaySafe, IsAsciiDisplaySafe;
    if text != [] {
      SafeOnAscii(text[0]);
      AsciiFilter(text[1..]);
      var bytes := Bytes(text);
      assert bytes[1..] == Bytes(text[1..]);
      var rest := Retain(bytes[1..], IsAsciiDisplaySafe);
      assert IsAsciiDisplaySafe(bytes[0]) <==> IsDisplaySafe(text[0]);
      assert FromAscii([bytes[0]] + rest) == [text[0]] + FromAscii(rest);
      assert Retain(bytes, IsAsciiDisplaySafe) == if IsAsciiDisplaySafe(bytes[0]) then [bytes[0]] + rest else rest;
    }
  }

  lemma AllSafeIsKept(text: Text)
    requires IsAscii(text) && AllSafe(Bytes(text))
    ensures Kept(text) == text
  {
    hide IsDisplaySafe, IsAsciiDisplaySafe, Retain;
    forall i | 0 <= i < |text| ensures IsDisplaySafe(text[i]) {
      SafeOnAscii(text[i]);
      assert IsAsciiDisplaySafe(Bytes(text)[i]);
    }
    RetainAll(text, IsDisplaySafe);
  }

  /** Copy runs of safe bytes, skip runs of others. */
  method CopySafeRuns(bytes: seq<bv8>) returns (filtered: seq<bv8>)
    ensures filtered == Retain(bytes, IsAsciiDisplaySafe)
  {
    hide IsAsciiDisplaySafe, Retain;
    filtered := [];
    RetainNone([], IsAsciiDisplaySafe);
    var index := 0;
    while index < |bytes|
      invariant index <= |bytes|
      invariant filtered == Retain(bytes[..index], IsAsciiDisplaySafe)
    {
      var start := index;
      while index < |bytes| && IsAsciiDisplaySafe(bytes[index])
        invariant start <= index <= |bytes|
        invariant forall k :: start <= k < index ==> IsAsciiDisplaySafe(bytes[k])
      {
        index := index + 1;
      }
      if index > start {
        filtered := filtered + bytes[start..index];
      }
      ghost var middle := index;
      while index < |bytes| && !IsAsciiDisplaySafe(bytes[index])
        invariant middle <= index <= |bytes|
        invariant forall k :: middle <= k < index ==> !IsAsciiDisplaySafe(bytes[k])
      {
        index := index + 1;
      }
      RunsCopied(bytes, start, middle, index);
    }
    assert bytes[..|bytes|] == bytes;
  }

  lemma RunsCopied(bytes: seq<bv8>, start: nat, middle: nat, index: nat)
    requires start <= middle <= index <= |bytes|
    requires forall k :: start <= k < middle ==> IsAsciiDisplaySafe(bytes[k])
    requires forall k :: middle <= k < index ==> !IsAsciiDisplaySafe(bytes[k])
    ensures Retain(bytes[..index], IsAsciiDisplaySafe) ==
            Retain(bytes[..start], IsAsciiDisplaySafe) + bytes[start..middle]
  {
    hide IsAsciiDisplaySafe, Retain;
    RetainAll(bytes[start..middle], IsAsciiDisplaySafe);
    RetainNone(bytes[middle..index], IsAsciiDisplaySafe);
    RetainAppend(bytes[..start], bytes[start..middle], IsAsciiDisplaySafe);
    RetainAppend(bytes[..middle], bytes[middle..index], IsAsciiDisplaySafe);
    assert bytes[..middle] == bytes[..start] + bytes[start..middle];
    assert bytes[..index] == bytes[..middle] + bytes[middle..index];
  }

  method SanitizeDisplayText(text: Text, littleEndian: bool) returns (clean: Text)
    ensures clean == Kept(text)
  {
    hide Kept, AreAscii, AllSafe;
    if IsAscii(text) {
      AsciiFilter(text);
      var found := ContainsAsciiControl(Bytes(text), littleEndian);
      if !found {
        AllSafeIsKept(text);
        return text;
      }
      var filtered := CopySafeRuns(Bytes(text));
      clean := FromAscii(filtered);
    } else {
      clean := Kept(text);
    }
  }

  class DisplayString {
    var text: Text

    /** The in-place variant: `Vec::retain` on the bytes, or `String::retain` on the characters. */
    method Sanitize(littleEndian: bool)
      modifies this
      ensures text == Kept(old(text))
    {
      hide Kept, AreAscii, AllSafe;
      if IsAscii(text) {
        AsciiFilter(text);
        var found := ContainsAsciiControl(Bytes(text), littleEndian);
        if !found {
          AllSafeIsKept(text);
          return;
        }
        text := FromAscii(Retain(Bytes(text), IsAsciiDisplaySafe));
      } else {
        text := Kept(text);
      }
    }
  }
}
