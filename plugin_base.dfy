/** What the ingestor plugins share: the case-insensitive source-type test
    behind every `can_handle`, and the record the platform ingestors
    (YouTube, LinkedIn, Instagram) emit per comment. */
module PluginBase {
  import opened Text
  import opened PyValue

  /** One formatted platform comment. The fields copied from the comment
      keep their JSON values; `metadata` is the dict of platform details. */
  datatype PlatformRecord = PlatformRecord(
    text: Value, source: string, timestamp: Value, author: Value, likes: Value,
    metadata: seq<(string, Value)>)

  /** `source_type.lower() in names`. */
  predicate Handles(sourceType: string, names: seq<string>) {
    Lower(sourceType) in names
  }

  predicate LowerCaseNames(names: seq<string>) {
    forall i :: 0 <= i < |names| ==> forall c :: c in names[i] ==> !IsUpper(c)
  }

  /** With lower-case names the test ignores case, and accepts exactly the
      names themselves in any case. */
  lemma HandlesAnyCase(names: seq<string>)
    requires LowerCaseNames(names)
    ensures forall s :: Handles(s, names) <==> Handles(Lower(s), names)
    ensures forall i :: 0 <= i < |names| ==> Handles(names[i], names)
  {
    forall s
      ensures Handles(s, names) <==> Handles(Lower(s), names)
    {
      LowerIdempotent(s);
    }
    forall i | 0 <= i < |names|
      ensures Handles(names[i], names)
    {
      LowerOfLowerCase(names[i]);
    }
  }
}
