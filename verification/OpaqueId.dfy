/**
 The opaque-id payload of ReceiptProvenanceRegistry.ts: tagged, length-prefixed parts in a
 row. Strings are sequences of code units; a number stands for the text String gives it.
 */
module OpaqueId {
  import opened Wrappers
  import opened Text

  datatype Part = TextPart(value: string) | NumberPart(value: string)

  function Tag(p: Part): char {
    if p.NumberPart? then 'n' else 's'
  }

  /** `encodeOpaqueIdPart` */
  function EncodePart(p: Part): string {
    [Tag(p)] + Decimal(|p.value|) + ":" + p.value
  }

  function Encode(parts: seq<Part>): string {
    if parts == [] then "" else EncodePart(parts[0]) + Encode(parts[1..])
  }

  /** `opaqueIdPayload` */
  function Payload(namespace: string, parts: seq<Part>): string {
    Encode([TextPart(namespace)] + parts)
  }

  /** A text is written as `s`, its length, a colon and itself, a number with an `n`; parts stand in a row. */
  lemma {:induction false} EncodedInARow(parts: seq<Part>, part: Part)
    ensures Encode([]) == ""
    ensures Encode(parts + [part])
         == Encode(parts) + (if part.TextPart? then "s" else "n") + Decimal(|part.value|) + ":" + part.value
  {
    hide Decimal;
    if parts == [] {
      assert [part][1..] == [] && EncodePart(part) + "" == EncodePart(part);
    } else {
      EncodedInARow(parts[1..], part);
      assert (parts + [part])[0] == parts[0] && (parts + [part])[1..] == parts[1..] + [part];
      var e := EncodePart(parts[0]);
      var t := if part.TextPart? then "s" else "n";
      assert e + (Encode(parts[1..]) + t + Decimal(|part.value|) + ":" + part.value)
             == e + Encode(parts[1..]) + t + Decimal(|part.value|) + ":" + part.value;
    }
  }

  // ------------------------------------------------------------------- decoding

  /** The first part of a payload and what follows it. */
  function DecodeFirst(s: string): Option<(Part, string)> {
    if s == "" || (s[0] != 'n' && s[0] != 's') then None
    else
      var rest := s[1..];
      match FirstIndex(rest, ':')
      case None => None
      case Some(i) =>
        var digits, after := rest[..i], rest[i + 1..];
        if digits == "" || !AllDigits(digits) || digits != Decimal(Number(digits)) || Number(digits) > |after| then None
        else
          var value := after[..Number(digits)];
          Some((if s[0] == 'n' then NumberPart(value) else TextPart(value), after[Number(digits)..]))
  }

  function Decode(s: string): Option<seq<Part>>
    decreases |s|
  {
    if s == "" then Some([])
    else
      match DecodeFirst(s)
      case None => None
      case Some((part, rest)) =>
        if |rest| >= |s| then None
        else
          match Decode(rest)
          case None => None
          case Some(parts) => Some([part] + parts)
  }

  lemma FirstColon(digits: string, after: string)
    requires AllDigits(digits)
    ensures FirstIndex(digits + (":" + after), ':') == Some(|digits|)
    ensures (digits + (":" + after))[..|digits|] == digits && (digits + (":" + after))[|digits| + 1..] == after
  {
    var s := digits + (":" + after);
    assert forall k | 0 <= k < |digits| :: s[k] == digits[k];
    assert s[|digits|] == ':';
  }

  lemma EncodedText(p: Part, rest: string)
    ensures EncodePart(p) + rest == [Tag(p)] + (Decimal(|p.value|) + (":" + (p.value + rest)))
    ensures EncodePart(p) + rest != "" && (EncodePart(p) + rest)[0] == Tag(p)
    ensures (EncodePart(p) + rest)[1..] == Decimal(|p.value|) + (":" + (p.value + rest))
  {
    hide Decimal;
    Reassociate([Tag(p)], Decimal(|p.value|), p.value, rest);
    var tail := Decimal(|p.value|) + (":" + (p.value + rest));
    assert ([Tag(p)] + tail)[1..] == tail;
  }

  lemma DecodesFirst(p: Part, rest: string)
    ensures DecodeFirst(EncodePart(p) + rest) == Some((p, rest))
  {
    hide EncodePart, FirstIndex, Decimal, Number;
    EncodedText(p, rest);
    FirstColon(Decimal(|p.value|), p.value + rest);
    NumberOfDecimal(|p.value|);
    assert (p.value + rest)[..|p.value|] == p.value && (p.value + rest)[|p.value|..] == rest;
  }

  lemma CutAtColon(s: string, i: nat)
    requires i < |s| && s[i] == ':'
    ensures s == s[..i] + (":" + s[i + 1..])
  {
  }

  lemma FirstDecodes(s: string, p: Part, rest: string)
    requires DecodeFirst(s) == Some((p, rest))
    ensures s == EncodePart(p) + rest
  {
    hide EncodePart, FirstIndex, Decimal, Number, AllDigits;
    var tail := s[1..];
    var i := FirstIndex(tail, ':').value;
    var after := tail[i + 1..];
    CutAtColon(tail, i);
    assert after == p.value + rest;
    EncodedText(p, rest);
    assert s == [s[0]] + tail;
  }

  lemma Reassociate(tag: string, digits: string, value: string, rest: string)
    ensures tag + (digits + (":" + (value + rest))) == tag + digits + ":" + value + rest
  {
  }

  /**
   A string decodes to a list of parts exactly when it is that list's encoding: the decoder
   recovers every part with its tag, and no two lists share an encoding.
   */
  lemma {:induction false} DecodeExact(s: string, parts: seq<Part>)
    ensures Decode(s) == Some(parts) <==> s == Encode(parts)
    decreases |s|
  {
    hide DecodeFirst, EncodePart;
    if s == "" {
      if parts != [] {
        EncodePartLong(parts[0]);
      }
    } else {
      if DecodeFirst(s).Some? {
        var (part, rest) := DecodeFirst(s).value;
        FirstDecodes(s, part, rest);
        EncodePartLong(part);
        if parts != [] {
          DecodeExact(rest, parts[1..]);
          assert parts == [parts[0]] + parts[1..];
        }
      }
      if parts != [] && s == Encode(parts) {
        DecodesFirst(parts[0], Encode(parts[1..]));
      }
    }
  }

  lemma EncodePartLong(p: Part)
    ensures |EncodePart(p)| > 2
  {
  }

  /** Different namespaces or part lists never share a payload. */
  lemma PayloadsDiffer(a: string, b: string, p: seq<Part>, q: seq<Part>)
    requires Payload(a, p) == Payload(b, q)
    ensures a == b && p == q
  {
    hide Encode, Decode;
    DecodeExact(Payload(a, p), [TextPart(a)] + p);
    DecodeExact(Payload(b, q), [TextPart(b)] + q);
    assert ([TextPart(a)] + p)[0] == ([TextPart(b)] + q)[0];
    assert ([TextPart(a)] + p)[1..] == p && ([TextPart(b)] + q)[1..] == q;
  }
}
