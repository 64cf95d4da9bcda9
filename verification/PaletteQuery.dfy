/** The detector of OSC 10 and OSC 11 color queries in a PTY's output, fed chunk by chunk. */
module PaletteQueries {
  import opened Basics

  const ESC: byte := 27
  const BEL: byte := 7
  const BACKSLASH: byte := 92

  /** `ESC ] 1 0 ; ?` and `ESC ] 1 1 ; ?`, each ended by BEL or by `ESC \`. */
  function Stem(slot: byte): seq<byte>
    requires slot == 10 || slot == 11
  {
    [ESC, 93, 49, 48 + (slot - 10), 59, 63]
  }

  function Query(slot: byte, bell: bool): seq<byte>
    requires slot == 10 || slot == 11
  {
    Stem(slot) + if bell then [BEL] else [ESC, BACKSLASH]
  }

  function SlotOf(text: seq<byte>): Option<byte> {
    if text == Query(10, true) || text == Query(10, false) then Some(10)
    else if text == Query(11, true) || text == Query(11, false) then Some(11)
    else None
  }

  predicate StartsQuery(text: seq<byte>) {
    text <= Query(10, true) || text <= Query(10, false) || text <= Query(11, true) || text <= Query(11, false)
  }

  predicate ProperPrefix(text: seq<byte>) {
    StartsQuery(text) && SlotOf(text).None?
  }

  // ---------------------------------------------------------------- on the whole stream

  /** The query that `stream` ends with, if any. */
  function EndsWith(stream: seq<byte>): Option<byte> {
    if |stream| >= 7 && SlotOf(stream[|stream| - 7..]).Some? then SlotOf(stream[|stream| - 7..])
    else if |stream| >= 8 then SlotOf(stream[|stream| - 8..])
    else None
  }

  /** The slots reported while `bytes` follow `stream`: one at each position where the stream so far
      ends with a query. */
  function Reported(stream: seq<byte>, bytes: seq<byte>): seq<byte>
    decreases |bytes|
  {
    if bytes == [] then []
    else
      var grown := stream + [bytes[0]];
      (if EndsWith(grown).Some? then [EndsWith(grown).value] else []) + Reported(grown, bytes[1..])
  }

  function ReportedAt(stream: seq<byte>, b: byte): seq<byte> {
    if EndsWith(stream + [b]).Some? then [EndsWith(stream + [b]).value] else []
  }

  lemma ReportedStep(stream: seq<byte>, b: byte, rest: seq<byte>)
    ensures Reported(stream, [b] + rest) == ReportedAt(stream, b) + Reported(stream + [b], rest)
  {
    assert ([b] + rest)[1..] == rest;
  }

  lemma NothingReported(stream: seq<byte>)
    ensures Reported(stream, []) == []
  {
  }

  /** The longest suffix that is a proper prefix of some query. */
  function Longest(stream: seq<byte>): seq<byte> {
    if ProperPrefix(stream) || stream == [] then stream else Longest(stream[1..])
  }

  // ---------------------------------------------------------------- the detector

  /** The detector's loop: drop leading bytes until what is left starts a query. */
  function Shrunk(text: seq<byte>): seq<byte> {
    if text == [] || StartsQuery(text) then text else Shrunk(text[1..])
  }

  class PaletteQueryDetector {
    var pending: seq<byte>
    /** Everything fed so far. */
    ghost var stream: seq<byte>

    ghost predicate Valid()
      reads this
    {
      pending == Longest(stream)
    }

    constructor ()
      ensures Valid() && stream == []
    {
      pending, stream := [], [];
    }

    method Feed(bytes: seq<byte>) returns (slots: seq<byte>)
      requires Valid()
      modifies this
      ensures Valid() && stream == old(stream) + bytes
      ensures slots == Reported(old(stream), bytes)
    {
      hide StartsQuery, SlotOf, Query, Stem, Longest, EndsWith, Reported;
      slots := [];
      for i := 0 to |bytes|
        invariant Valid() && stream == old(stream) + bytes[..i]
        invariant Reported(old(stream), bytes) == slots + Reported(stream, bytes[i..])
      {
        var byte := bytes[i];
        ghost var before := pending;
        assert stream + [byte] == old(stream) + bytes[..i + 1];
        ReportedStep(stream, byte, bytes[i + 1..]);
        assert bytes[i..] == [byte] + bytes[i + 1..];
        AddAssociates(slots, ReportedAt(stream, byte), Reported(stream + [byte], bytes[i + 1..]));
        StepCorrect(stream, byte);
        pending := pending + [byte];
        stream := stream + [byte];
        if SlotOf(pending).Some? {
          slots := slots + [SlotOf(pending).value];
          pending := [];
          continue;
        }
        while pending != [] && !StartsQuery(pending)
          invariant stream == old(stream) + bytes[..i + 1]
          invariant Shrunk(pending) == Shrunk(before + [byte])
        {
          pending := pending[1..];
        }
      }
      assert old(stream) + bytes[..|bytes|] == old(stream) + bytes;
      NothingReported(stream);
    }
  }

  // ---------------------------------------------------------------- why dropping and clearing lose nothing

  lemma {:induction false} LongestIsSuffix(s: seq<byte>)
    ensures |Longest(s)| <= |s| && Longest(s) == s[|s| - |Longest(s)|..]
    ensures ProperPrefix(Longest(s))
  {
    hide StartsQuery, SlotOf, Query, Stem;
    QuerySizes(s);
    if !ProperPrefix(s) && s != [] {
      LongestIsSuffix(s[1..]);
      assert s[1..][|s| - 1 - |Longest(s)|..] == s[|s| - |Longest(s)|..];
    }
  }

  lemma {:induction false} LongestIsLongest(s: seq<byte>, n: nat)
    requires n <= |s| && ProperPrefix(s[|s| - n..])
    ensures n <= |Longest(s)|
  {
    hide StartsQuery, SlotOf, Query, Stem, ProperPrefix;
    if !ProperPrefix(s) && s != [] {
      assert s[|s| - n..] == if n == |s| then s else s[1..][|s| - 1 - n..];
      LongestIsLongest(s[1..], n);
    }
  }

  /** A query prefix carries its first byte nowhere else that a query could start. */
  lemma NoInnerStart(text: seq<byte>, k: nat)
    requires StartsQuery(text) && 0 < k < |text|
    ensures StartsQuery(text[k..]) ==> k == 6 && |text| == 7 && SlotOf(text).None?
  {
    var inner := text[k..];
    assert inner[0] == text[k];
    assert |text| > k + 1 ==> inner[1] == text[k + 1];
  }

  lemma PrefixOfPrefix(text: seq<byte>, k: nat)
    requires StartsQuery(text) && k < |text|
    ensures ProperPrefix(text[..k])
  {
    var prefix := text[..k];
    if k == 7 { assert prefix[6] == text[6]; }
  }

  lemma QuerySizes(text: seq<byte>)
    ensures SlotOf(text).Some? ==> StartsQuery(text) && (|text| == 7 || |text| == 8)
    ensures ProperPrefix(text) ==> |text| <= 7
    ensures ProperPrefix([])
  {
  }

  /** The stream ends with a query exactly when the pending bytes complete one. */
  lemma MatchesSeen(stream: seq<byte>, b: byte)
    ensures EndsWith(stream + [b]) == SlotOf(Longest(stream) + [b])
  {
    hide StartsQuery, SlotOf, Query, Stem, Longest;
    var p, grown := Longest(stream), stream + [b];
    LongestIsSuffix(stream);
    QuerySizes(p + [b]);
    QuerySizes(p);
    if EndsWith(grown).Some? {
      var n := if |grown| >= 7 && SlotOf(grown[|grown| - 7..]).Some? then 7 else 8;
      var q := grown[|grown| - n..];
      QuerySizes(q);
      PrefixOfPrefix(q, n - 1);
      assert q[..n - 1] == stream[|stream| - (n - 1)..];
      LongestIsLongest(stream, n - 1);
      var k := |p| - (n - 1);
      assert p[k..] == q[..n - 1];
      if k > 0 { NoInnerStart(p, k); }
      assert q == p + [b];
    } else if SlotOf(p + [b]).Some? {
      assert grown[|grown| - |p| - 1..] == p + [b];
    }
  }

  /** Nothing that could start a query reaches back beyond the pending bytes. */
  lemma LongestWithin(stream: seq<byte>, b: byte)
    ensures Longest(stream + [b]) == Longest(Longest(stream) + [b])
  {
    hide StartsQuery, SlotOf, Query, Stem, Longest;
    var p, grown := Longest(stream), stream + [b];
    LongestIsSuffix(stream);
    LongestIsSuffix(grown);
    LongestIsSuffix(p + [b]);
    assert grown[|grown| - |p| - 1..] == p + [b];
    var t := Longest(grown);
    if t != [] {
      PrefixOfPrefix(t, |t| - 1);
      assert t[..|t| - 1] == stream[|stream| - (|t| - 1)..];
      LongestIsLongest(stream, |t| - 1);
      assert (p + [b])[|p| + 1 - |t|..] == t;
      LongestIsLongest(p + [b], |t|);
    }
    var u := Longest(p + [b]);
    assert grown[|grown| - |u|..] == u;
    LongestIsLongest(grown, |u|);
  }

  lemma {:induction false} ShrunkIsLongest(text: seq<byte>)
    requires forall k :: 0 <= k <= |text| ==> SlotOf(text[k..]).None?
    ensures Shrunk(text) == Longest(text)
  {
    assert text[0..] == text;
    if text != [] && !StartsQuery(text) {
      forall k | 0 <= k <= |text| - 1
        ensures SlotOf(text[1..][k..]).None?
      {
        assert text[1..][k..] == text[k + 1..];
      }
      ShrunkIsLongest(text[1..]);
    }
  }

  /** One byte: a slot is reported exactly when the whole stream now ends with a query, and either
      way the detector is left with the longest suffix that may still become one. */
  lemma StepCorrect(stream: seq<byte>, b: byte)
    ensures EndsWith(stream + [b]) == SlotOf(Longest(stream) + [b])
    ensures Longest(stream + [b]) == if SlotOf(Longest(stream) + [b]).Some? then [] else Shrunk(Longest(stream) + [b])
  {
    hide StartsQuery, SlotOf, Query, Stem, Longest, EndsWith;
    MatchesSeen(stream, b);
    LongestWithin(stream, b);
    var text := Longest(stream) + [b];
    QuerySizes(text);
    if SlotOf(text).Some? {
      LongestIsSuffix(text);
      assert text[0..] == text;
      var k := |text| - |Longest(text)|;
      if 0 < k < |text| { NoInnerStart(text, k); }
    } else {
      LongestIsSuffix(stream);
      assert text[0..] == text;
      forall k | 0 <= k <= |text|
        ensures SlotOf(text[k..]).None?
      {
        if SlotOf(text[k..]).Some? {
          QuerySizes(text[k..]);
          PrefixOfPrefix(text[k..], |text| - k - 1);
          assert text[k..][..|text| - k - 1] == Longest(stream)[k..];
          if k > 0 { NoInnerStart(Longest(stream), k); }
          assert false;
        }
      }
      ShrunkIsLongest(text);
    }
  }

  /** The texts a child sends: color 10 or 11, ended by BEL or by ESC and a backslash. */
  lemma TheFourQueries(before: seq<byte>)
    ensures EndsWith(before + [27, 93, 49, 48, 59, 63, 7]) == Some(10)
    ensures EndsWith(before + [27, 93, 49, 49, 59, 63, 7]) == Some(11)
    ensures EndsWith(before + [27, 93, 49, 48, 59, 63, 27, 92]) == Some(10)
    ensures EndsWith(before + [27, 93, 49, 49, 59, 63, 27, 92]) == Some(11)
  {
    hide EndsWith;
    assert Query(10, true) == [27, 93, 49, 48, 59, 63, 7] && Query(11, true) == [27, 93, 49, 49, 59, 63, 7];
    assert Query(10, false) == [27, 93, 49, 48, 59, 63, 27, 92] && Query(11, false) == [27, 93, 49, 49, 59, 63, 27, 92];
    EndsWithQuery(before, 10, true);
    EndsWithQuery(before, 11, true);
    EndsWithQuery(before, 10, false);
    EndsWithQuery(before, 11, false);
  }

  lemma EndsWithQuery(before: seq<byte>, slot: byte, bell: bool)
    requires slot == 10 || slot == 11
    ensures EndsWith(before + Query(slot, bell)) == Some(slot)
  {
    var query := Query(slot, bell);
    var stream := before + query;
    assert stream[|stream| - |query|..] == query;
    assert query[3] == 48 + (slot - 10) && Query(10, bell)[3] == 48;
    if !bell {
      assert stream[|stream| - 7..] == query[1..];
      assert query[1..][0] != ESC && Query(10, true)[0] == ESC && Query(11, true)[0] == ESC;
    }
  }

  // ---------------------------------------------------------------- chunking

  /** What is reported does not depend on how the output was cut into reads. */
  lemma {:induction false} ChunkingDoesNotMatter(stream: seq<byte>, first: seq<byte>, second: seq<byte>)
    ensures Reported(stream, first + second) == Reported(stream, first) + Reported(stream + first, second)
    decreases |first|
  {
    if first == [] {
      assert first + second == second && stream + first == stream;
    } else {
      var grown := stream + [first[0]];
      AppendSplit(first, second);
      ChunkingDoesNotMatter(grown, first[1..], second);
      assert grown + first[1..] == stream + first;
      var head := if EndsWith(grown).Some? then [EndsWith(grown).value] else [];
      AddAssociates(head, Reported(grown, first[1..]), Reported(stream + first, second));
    }
  }
}
