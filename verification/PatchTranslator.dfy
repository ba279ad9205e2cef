/**
 V18PatchTranslator.ts: rewriting the content references of patch operations into asset
 handles, with a table that remembers the handle given for each object and encryption mode.
 */
module PatchTranslator {
  import opened Wrappers
  import opened Text

  /** A decoded value: a string, or anything else. */
  datatype Value = Str(text: string) | Other(id: int)

  /** A decoded operation; fields it does not need to know are kept. */
  type Op = map<string, Value>

  /** One element of the decoded operation array. */
  datatype Element = Record(op: Op) | NotARecord

  datatype TranslateError =
    | AlreadyCurrent
    | PassphraseRequired
    | UnreadablePatch
    | MalformedOperation
    | ContentIsNotAReference
    | UnparsableHandle(reference: string)
    | StagingFailed(reference: string)
    | NeverTranslated(reference: string)
    | AmbiguousModes(reference: string)

  type Handle = string
  type HandleTable = map<string, Handle>

  function ContentCacheKey(reference: string, encrypted: bool): string {
    reference + ":" + if encrypted then "true" else "false"
  }

  lemma ContentCacheKeyInjective(a: string, b: string, p: bool, q: bool)
    requires ContentCacheKey(a, p) == ContentCacheKey(b, q)
    ensures a == b && p == q
  {
    var k, l := ContentCacheKey(a, p), ContentCacheKey(b, q);
    assert k[|k| - 4] == if p then 't' else 'a';
    assert l[|l| - 4] == if q then 't' else 'a';
    assert k[..|a|] == a && l[..|b|] == b;
  }

  /** The field of an operation that refers to content, if it has one. */
  function ContentField(op: Op): Option<string> {
    if "key" in op && op["key"] == Str("_content") then Some("value")
    else if "type" in op && op["type"] == Str("BlobValue") && "oid" in op && op["oid"].Str? then Some("oid")
    else None
  }

  /** What a reference became: objects by the table, handles by themselves. */
  function Resolved(table: HandleTable, parses: string -> bool, reference: string, encrypted: bool): Option<Handle> {
    if !IsOid(reference) then (if parses(reference) then Some(reference) else None)
    else if ContentCacheKey(reference, encrypted) in table then Some(table[ContentCacheKey(reference, encrypted)])
    else None
  }

  /** An operation mentions a reference in its content field. */
  predicate Mentions(op: Op, reference: string) {
    ContentField(op).Some? && ContentField(op).value in op && op[ContentField(op).value] == Str(reference)
  }

  /** `to` is `op` with its content reference, and nothing else, replaced by the handle for it. */
  predicate Rewritten(op: Op, to: Op, encrypted: bool, table: HandleTable, parses: string -> bool) {
    match ContentField(op)
    case None => to == op
    case Some(field) =>
      && field in op && op[field].Str?
      && Resolved(table, parses, op[field].text, encrypted).Some?
      && to == op[field := Str(Resolved(table, parses, op[field].text, encrypted).value)]
  }

  /** The handle for a reference: an object's is filed under its name and mode, a handle is its own. */
  predicate Answers(table: HandleTable, parses: string -> bool, reference: string, encrypted: bool, h: Handle) {
    var filed := reference + ":" + if encrypted then "true" else "false";
    if IsOid(reference) then filed in table && table[filed] == h else h == reference && parses(reference)
  }

  /**
   An operation on the `_content` property refers to content in its value, which must be a
   text; any other blob value with a textual `oid` refers to content there; no other operation
   does. Rewriting replaces that one field by the handle for it, and nothing otherwise.
   */
  lemma RewrittenExactly(op: Op, to: Op, encrypted: bool, table: HandleTable, parses: string -> bool)
    ensures Rewritten(op, to, encrypted, table, parses)
       <==> if "key" in op && op["key"] == Str("_content") then
              && "value" in op && op["value"].Str?
              && exists h :: Answers(table, parses, op["value"].text, encrypted, h) && to == op["value" := Str(h)]
            else if "type" in op && op["type"] == Str("BlobValue") && "oid" in op && op["oid"].Str? then
              exists h :: Answers(table, parses, op["oid"].text, encrypted, h) && to == op["oid" := Str(h)]
            else to == op
  {
    hide IsOid;
    if ContentField(op).Some? && ContentField(op).value in op && op[ContentField(op).value].Str? {
      ResolvedAnswers(table, parses, op[ContentField(op).value].text, encrypted);
    }
  }

  lemma ResolvedAnswers(table: HandleTable, parses: string -> bool, reference: string, encrypted: bool)
    ensures forall h :: Resolved(table, parses, reference, encrypted) == Some(h)
                        <==> Answers(table, parses, reference, encrypted, h)
  {
  }

  /** The handle a rewritten operation ended up with. */
  function HandleOf(op: Op, encrypted: bool, table: HandleTable, parses: string -> bool): Option<Handle> {
    match ContentField(op)
    case None => None
    case Some(field) =>
      if field in op && op[field].Str? then Resolved(table, parses, op[field].text, encrypted) else None
  }

  ghost predicate Grows(earlier: HandleTable, later: HandleTable) {
    forall k | k in earlier :: k in later && later[k] == earlier[k]
  }

  /** Growing the table changes no rewriting. */
  lemma RewrittenStays(
    op: Op, to: Op, encrypted: bool, earlier: HandleTable, later: HandleTable, parses: string -> bool)
    requires Rewritten(op, to, encrypted, earlier, parses) && Grows(earlier, later)
    ensures Rewritten(op, to, encrypted, later, parses)
    ensures HandleOf(op, encrypted, later, parses) == HandleOf(op, encrypted, earlier, parses)
  {
  }

  /** One translated patch: its operations before and after. */
  datatype TranslatedPatch = TranslatedPatch(encrypted: bool, ops: seq<Op>, rewritten: seq<Op>, attachments: set<Handle>)

  /** Every operation was rewritten, and the attachments are exactly the handles that appear. */
  ghost predicate TranslatedBy(patch: TranslatedPatch, table: HandleTable, parses: string -> bool) {
    && |patch.ops| == |patch.rewritten|
    && (forall i | 0 <= i < |patch.ops| ::
          Rewritten(patch.ops[i], patch.rewritten[i], patch.encrypted, table, parses))
    && (forall h :: h in patch.attachments
          <==> exists i :: 0 <= i < |patch.ops| && HandleOf(patch.ops[i], patch.encrypted, table, parses) == Some(h))
  }

  lemma TranslatedStays(patch: TranslatedPatch, earlier: HandleTable, later: HandleTable, parses: string -> bool)
    requires TranslatedBy(patch, earlier, parses) && Grows(earlier, later)
    ensures TranslatedBy(patch, later, parses)
  {
    hide Rewritten, HandleOf;
    forall i | 0 <= i < |patch.ops|
      ensures Rewritten(patch.ops[i], patch.rewritten[i], patch.encrypted, later, parses)
      ensures HandleOf(patch.ops[i], patch.encrypted, later, parses)
           == HandleOf(patch.ops[i], patch.encrypted, earlier, parses)
    {
      RewrittenStays(patch.ops[i], patch.rewritten[i], patch.encrypted, earlier, later, parses);
    }
  }

  /** The handles the table holds for an object, over both encryption modes. */
  function HandlesFor(table: HandleTable, reference: string): set<Handle> {
    (if ContentCacheKey(reference, false) in table then {table[ContentCacheKey(reference, false)]} else {})
    + (if ContentCacheKey(reference, true) in table then {table[ContentCacheKey(reference, true)]} else {})
  }

  /** `translatedContentHandle` */
  function TranslatedContentHandle(table: HandleTable, parses: string -> bool, reference: string)
    : (r: Result<Handle, TranslateError>)
    ensures !IsOid(reference) ==> if parses(reference) then r == Success(reference) else r.Failure?
    ensures IsOid(reference) ==>
              if HandlesFor(table, reference) == {} then r == Failure(NeverTranslated(reference))
              else r.Failure? || HandlesFor(table, reference) == {r.value}
    ensures IsOid(reference) && r.Failure? && HandlesFor(table, reference) != {} ==>
              exists h, k :: h in HandlesFor(table, reference) && k in HandlesFor(table, reference) && h != k
  {
    var clear, secret := ContentCacheKey(reference, false), ContentCacheKey(reference, true);
    if !IsOid(reference) then (if parses(reference) then Success(reference) else Failure(UnparsableHandle(reference)))
    else if clear !in table && secret !in table then Failure(NeverTranslated(reference))
    else if clear in table && secret in table && table[clear] != table[secret] then
      assert table[clear] in HandlesFor(table, reference) && table[secret] in HandlesFor(table, reference);
      Failure(AmbiguousModes(reference))
    else Success(if clear in table then table[clear] else table[secret])
  }

  /**
   If the translator answers for an object, every operation that mentioned it, in either
   encryption mode, was rewritten to that same handle.
   */
  lemma AnswersAgreeWithPatches(
    patch: TranslatedPatch, table: HandleTable, parses: string -> bool, reference: string, i: nat)
    requires TranslatedBy(patch, table, parses)
    requires i < |patch.ops| && Mentions(patch.ops[i], reference)
    requires TranslatedContentHandle(table, parses, reference).Success?
    ensures ContentField(patch.ops[i]).value in patch.rewritten[i]
    ensures patch.rewritten[i][ContentField(patch.ops[i]).value]
         == Str(TranslatedContentHandle(table, parses, reference).value)
  {
    hide ContentCacheKey;
    assert Rewritten(patch.ops[i], patch.rewritten[i], patch.encrypted, table, parses);
  }

  lemma TranslatedLengths(patch: TranslatedPatch, table: HandleTable, parses: string -> bool)
    requires TranslatedBy(patch, table, parses)
    ensures |patch.rewritten| == |patch.ops|
  {
  }

  /** A patch as it is found: its storage, and its operations if it can be read and decoded. */
  datatype SourcePatch = SourcePatch(current: bool, encrypted: bool, elements: Option<seq<Element>>)

  lemma KeyIs(reference: string, encrypted: bool)
    ensures ContentCacheKey(reference, encrypted) == reference + ":" + if encrypted then "true" else "false"
  {
  }

  class Translator {
    const passphrase: bool
    const parses: string -> bool
    /** What the n-th staging of an object gives; staging twice may give two handles. */
    const staged: (nat, string, bool) -> Option<Handle>
    var contentHandles: HandleTable
    var calls: nat
    /** Every patch translated so far. */
    ghost var translated: seq<TranslatedPatch>

    ghost predicate Valid()
      reads this
    {
      && (forall p | p in translated :: TranslatedBy(p, contentHandles, parses))
      && forall k | k in contentHandles :: WasStaged(k)
    }

    /** The entry came from staging an object in one mode. */
    ghost predicate WasStaged(k: string)
      requires k in contentHandles
      reads this
    {
      exists n: nat, reference, encrypted: bool ::
        && n < calls && IsOid(reference) && k == reference + ":" + (if encrypted then "true" else "false")
        && staged(n, reference, encrypted) == Some(contentHandles[k])
    }

    constructor (passphrase: bool, parses: string -> bool, staged: (nat, string, bool) -> Option<Handle>)
      ensures Valid() && contentHandles == map[] && translated == []
      ensures this.passphrase == passphrase && this.parses == parses && this.staged == staged
    {
      this.passphrase, this.parses, this.staged := passphrase, parses, staged;
      contentHandles, calls, translated := map[], 0, [];
    }

    method TranslateContentReference(reference: string, encrypted: bool)
      returns (r: Result<Handle, TranslateError>)
      requires Valid()
      modifies this`contentHandles, this`calls
      ensures Valid() && Grows(old(contentHandles), contentHandles)
      ensures r.Success? <==> Resolved(contentHandles, parses, reference, encrypted).Some?
      ensures r.Success? ==> Resolved(contentHandles, parses, reference, encrypted) == Some(r.value)
      ensures r.Failure? ==> contentHandles == old(contentHandles)
      ensures Resolved(old(contentHandles), parses, reference, encrypted).Some? ==> calls == old(calls)
      ensures forall k | k in contentHandles && k !in old(contentHandles) :: k == ContentCacheKey(reference, encrypted)
      ensures var filed := reference + ":" + if encrypted then "true" else "false";
              if !IsOid(reference) then
                r == (if parses(reference) then Success(reference) else Failure(UnparsableHandle(reference)))
              else if filed in old(contentHandles) then r == Success(old(contentHandles)[filed])
              else
                match staged(old(calls), reference, encrypted)
                case None => r == Failure(StagingFailed(reference))
                case Some(h) => r == Success(h) && contentHandles == old(contentHandles)[filed := h]
    {
      KeyIs(reference, encrypted);
      hide ContentCacheKey, IsOid;
      if !IsOid(reference) {
        return if parses(reference) then Success(reference) else Failure(UnparsableHandle(reference));
      }
      var cacheKey := ContentCacheKey(reference, encrypted);
      if cacheKey in contentHandles {
        return Success(contentHandles[cacheKey]);
      }
      var handle := staged(calls, reference, encrypted);
      calls := calls + 1;
      if handle.None? {
        return Failure(StagingFailed(reference));
      }
      ghost var before := contentHandles;
      contentHandles := contentHandles[cacheKey := handle.value];
      assert WasStaged(cacheKey);
      forall p | p in translated
        ensures TranslatedBy(p, contentHandles, parses)
      {
        TranslatedStays(p, before, contentHandles, parses);
      }
      r := Success(handle.value);
    }

    method RewriteOperation(op: Op, encrypted: bool, attachments: set<Handle>)
      returns (r: Result<Op, TranslateError>, more: set<Handle>)
      requires Valid()
      modifies this`contentHandles, this`calls
      ensures Valid() && Grows(old(contentHandles), contentHandles)
      ensures r.Success? ==> Rewritten(op, r.value, encrypted, contentHandles, parses)
      ensures r.Success? ==>
                more == attachments + match HandleOf(op, encrypted, contentHandles, parses)
                                      case None => {}
                                      case Some(h) => {h}
    {
      hide Resolved, TranslatedBy, WasStaged, IsOid;
      more := attachments;
      if "key" in op && op["key"] == Str("_content") {
        if "value" !in op || !op["value"].Str? {
          return Failure(ContentIsNotAReference), more;
        }
        var handle := TranslateContentReference(op["value"].text, encrypted);
        if handle.Failure? {
          return Failure(handle.error), more;
        }
        return Success(op["value" := Str(handle.value)]), more + {handle.value};
      }
      if "type" in op && op["type"] == Str("BlobValue") && "oid" in op && op["oid"].Str? {
        var handle := TranslateContentReference(op["oid"].text, encrypted);
        if handle.Failure? {
          return Failure(handle.error), more;
        }
        return Success(op["oid" := Str(handle.value)]), more + {handle.value};
      }
      r := Success(op);
    }

    /** Rewrites every operation of a patch, or fails; either way no table entry changes. */
    method RewriteContentHandles(elements: seq<Element>, encrypted: bool)
      returns (r: Result<TranslatedPatch, TranslateError>)
      requires Valid()
      modifies this`contentHandles, this`calls
      ensures Valid() && Grows(old(contentHandles), contentHandles)
      ensures r.Success? ==>
                && TranslatedBy(r.value, contentHandles, parses) && r.value.encrypted == encrypted
                && |r.value.ops| == |elements|
                && forall i | 0 <= i < |elements| :: elements[i] == Record(r.value.ops[i])
    {
      hide Rewritten, HandleOf, WasStaged;
      var patch := TranslatedPatch(encrypted, [], [], {});
      for k := 0 to |elements|
        invariant Valid() && Grows(old(contentHandles), contentHandles)
        invariant patch.encrypted == encrypted && |patch.ops| == k
        invariant TranslatedBy(patch, contentHandles, parses)
        invariant forall i | 0 <= i < k :: elements[i] == Record(patch.ops[i])
      {
        if elements[k].NotARecord? {
          return Failure(MalformedOperation);
        }
        var op := elements[k].op;
        ghost var before := contentHandles;
        var to, attachments := RewriteOperation(op, encrypted, patch.attachments);
        if to.Failure? {
          return Failure(to.error);
        }
        TranslatedStays(patch, before, contentHandles, parses);
        OneMoreOp(patch, op, to.value, attachments, contentHandles, parses);
        patch := patch.(ops := patch.ops + [op], rewritten := patch.rewritten + [to.value], attachments := attachments);
      }
      r := Success(patch);
    }

    /** `translate`, up to the storing of the rewritten patch. */
    method Translate(patch: SourcePatch) returns (r: Result<TranslatedPatch, TranslateError>)
      requires Valid()
      modifies this
      ensures Valid() && Grows(old(contentHandles), contentHandles)
      ensures translated == old(translated) + if r.Success? then [r.value] else []
      ensures patch.current ==> r == Failure(AlreadyCurrent)
      ensures !patch.current && patch.encrypted && !passphrase ==> r == Failure(PassphraseRequired)
      ensures r.Success? ==>
                && patch.elements.Some? && |r.value.ops| == |patch.elements.value|
                && r.value.encrypted == patch.encrypted
                && forall i | 0 <= i < |r.value.ops| :: patch.elements.value[i] == Record(r.value.ops[i])
    {
      hide TranslatedBy;
      if patch.current {
        return Failure(AlreadyCurrent);
      }
      if patch.encrypted && !passphrase {
        return Failure(PassphraseRequired);
      }
      if patch.elements.None? {
        return Failure(UnreadablePatch);
      }
      r := RewriteContentHandles(patch.elements.value, patch.encrypted);
      if r.Success? {
        translated := translated + [r.value];
      }
    }

    /** Answers for one object; the answer agrees with every patch translated so far. */
    method ContentHandle(reference: string) returns (r: Result<Handle, TranslateError>)
      requires Valid()
      ensures r == TranslatedContentHandle(contentHandles, parses, reference)
      ensures r.Success? ==>
                forall p, i: nat | p in translated && i < |p.ops| && Mentions(p.ops[i], reference) ::
                  && |p.rewritten| == |p.ops| && ContentField(p.ops[i]).value in p.rewritten[i]
                  && p.rewritten[i][ContentField(p.ops[i]).value] == Str(r.value)
    {
      hide ContentCacheKey, TranslatedBy;
      r := TranslatedContentHandle(contentHandles, parses, reference);
      if r.Success? {
        forall p, i: nat | p in translated && i < |p.ops| && Mentions(p.ops[i], reference)
          ensures |p.rewritten| == |p.ops| && ContentField(p.ops[i]).value in p.rewritten[i]
                  && p.rewritten[i][ContentField(p.ops[i]).value] == Str(r.value)
        {
          TranslatedLengths(p, contentHandles, parses);
          AnswersAgreeWithPatches(p, contentHandles, parses, reference, i);
        }
      }
    }
  }

  lemma OneMoreOp(
    patch: TranslatedPatch, op: Op, to: Op, attachments: set<Handle>, table: HandleTable, parses: string -> bool)
    requires TranslatedBy(patch, table, parses) && Rewritten(op, to, patch.encrypted, table, parses)
    requires attachments == patch.attachments + match HandleOf(op, patch.encrypted, table, parses)
                                                case None => {}
                                                case Some(h) => {h}
    ensures TranslatedBy(
              patch.(ops := patch.ops + [op], rewritten := patch.rewritten + [to], attachments := attachments),
              table, parses)
  {
    hide Rewritten, HandleOf;
    var longer := patch.(ops := patch.ops + [op], rewritten := patch.rewritten + [to], attachments := attachments);
    assert longer.ops[|patch.ops|] == op;
    forall h
      ensures h in attachments
         <==> exists i :: 0 <= i < |longer.ops| && HandleOf(longer.ops[i], patch.encrypted, table, parses) == Some(h)
    {
      if h in patch.attachments {
        var i :| 0 <= i < |patch.ops| && HandleOf(patch.ops[i], patch.encrypted, table, parses) == Some(h);
        assert longer.ops[i] == patch.ops[i];
      }
    }
  }
}
