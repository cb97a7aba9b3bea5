/** The normalisation of a preview response body on the history screen. */
module Preview {
  import opened Wrappers
  import opened Json

  /** What the preview handler does with a decoded body: keep some rows, or throw because
      the body is `null` and `data.metadata` cannot be read. */
  datatype Normalized = Rows(rows: Json) | ReadOnNull

  /** The body is the envelope shape: both `metadata` and `data` are truthy. */
  predicate IsEnvelope(body: Json)
    requires !body.JNull?
  {
    Truthy(Member(body, "metadata")) && Truthy(Member(body, "data"))
  }

  /** `if (data.metadata && data.data) rows = data.data else rows = data`. */
  function Normalize(body: Json): (r: Normalized)
    ensures r.ReadOnNull? <==> body.JNull?
    ensures r.Rows? && IsEnvelope(body) ==> body.JObject? && r.rows == body.fields["data"]
    ensures r.Rows? && !IsEnvelope(body) ==> r.rows == body
  {
    if body.JNull? then ReadOnNull
    else if IsEnvelope(body) then Rows(Member(body, "data").value)
    else Rows(body)
  }

  /** An envelope with a truthy `metadata` around an array of rows yields the same rows as
      the bare array. */
  lemma EnvelopeMatchesBareArray(metadata: Json, rows: seq<Json>)
    requires Truthy(Some(metadata))
    ensures Normalize(JObject(map["metadata" := metadata, "data" := JArray(rows)]))
         == Normalize(JArray(rows))
         == Rows(JArray(rows))
  {
  }

  /** An object whose `metadata` is falsy or missing is kept whole, even if it has `data`. */
  lemma FalsyMetadataKeepsWholeBody(fields: map<string, Json>)
    requires !Truthy(Member(JObject(fields), "metadata"))
    ensures Normalize(JObject(fields)) == Rows(JObject(fields))
  {
  }

  /** A bare array is always kept as it is; so rows that are an array normalise to
      themselves again. */
  lemma BareArrayKept(rows: seq<Json>)
    ensures Normalize(JArray(rows)) == Rows(JArray(rows))
  {
  }
}
