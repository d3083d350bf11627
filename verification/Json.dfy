// JSON values and the merge patch of RFC 7386, which the CRD client sends with
// content type application/merge-patch+json.
module Json {
  import opened Text

  datatype Value =
    | Null
    | Bool(b: bool)
    | Num(n: int)
    | Str(s: string)
    | Arr(items: seq<Value>)
    | Obj(fields: map<string, Value>)

  /** What the server stores under a key after a patch: the merge of what was
      there, if anything, with the patch value. */
  function Merge(target: Option<Value>, patch: Value): Value
    decreases patch
  {
    match patch
    case Obj(p) =>
      var base := if target.Some? && target.value.Obj? then target.value.fields else map[];
      Obj(map k | k in base.Keys + p.Keys && !(k in p && p[k].Null?) ::
            if k in p then Merge(if k in base then Some(base[k]) else None, p[k]) else base[k])
    case _ => patch
  }

  /** Applying a patch a second time changes nothing. */
  lemma {:induction false} MergeIdempotent(target: Option<Value>, patch: Value)
    ensures Merge(Some(Merge(target, patch)), patch) == Merge(target, patch)
    decreases patch
  {
    if patch.Obj? {
      var p := patch.fields;
      var base := if target.Some? && target.value.Obj? then target.value.fields else map[];
      var once := Merge(target, patch).fields;
      var twice := Merge(Some(Merge(target, patch)), patch).fields;
      assert twice.Keys == once.Keys;
      forall k | k in once
        ensures twice[k] == once[k]
      {
        if k in p {
          MergeIdempotent(if k in base then Some(base[k]) else None, p[k]);
        }
      }
    }
  }

  /** Fields the patch does not name are untouched, and null removes. */
  lemma MergeFields(base: map<string, Value>, p: map<string, Value>, k: string)
    ensures var r := Merge(Some(Obj(base)), Obj(p));
            && r.Obj?
            && (k !in p ==> (k in r.fields <==> k in base) && (k in base ==> r.fields[k] == base[k]))
            && (k in p && p[k].Null? ==> k !in r.fields)
            && (k in p && !p[k].Null? ==>
                  k in r.fields && r.fields[k] == Merge(if k in base then Some(base[k]) else None, p[k]))
  {
  }
}
