/**
 * getDataFromContentResolver: the best-effort synchronous query tried before
 * launching the signer app. The content resolver itself is foreign; only the
 * shaping of its answer is modelled.
 */
module ResolverProbe {
  import opened Wrappers
  import opened Channel
  import opened Request

  /** What `resolver.query(...)` led to. A column maps to its (nullable) cell in the first row. */
  datatype Cursor =
    | QueryFault
    | NullCursor
    | NoRow
    | Row(columns: map<string, Option<string>>)

  /** The query sent to the resolver: a content URI and the projection array. */
  datatype Query = Query(uri: string, projection: seq<string>)

  // The column names the probe reads, written as literals in the source
  const ColumnSignature := "signature"
  const ColumnEvent := "event"

  /** ASCII upper-casing of one character. */
  function UpperChar(c: char): (u: char)
  {
    if 'a' <= c <= 'z' then (c as int - 'a' as int + 'A' as int) as char else c
  }

  /** `String.uppercase()`, restricted to ASCII letters. */
  function Upper(s: string): (r: string)
    ensures |r| == |s|
    ensures forall i :: 0 <= i < |s| ==> r[i] == UpperChar(s[i])
  {
    seq(|s|, i requires 0 <= i < |s| => UpperChar(s[i]))
  }

  /** The query for `req`: provider `<package>.<TYPE>`, projection (uriData, pubKey, currentUser). */
  function ProbeQuery(req: SignRequest): (q: Query)
  {
    Query(ProviderPrefix + Upper(req.requestType),
      [req.uriData, req.pubKey, req.currentUser])
  }

  /** The URI prefix shared by every probe query. */
  const ProviderPrefix := "content://" + AmberPackageName + "."

  /** Two strings that start with the same prefix are equal exactly when what follows is equal. */
  lemma SamePrefix(p: string, x: string, y: string)
    ensures p + x == p + y <==> x == y
  {
    if p + x == p + y {
      assert x == (p + x)[|p|..];
      assert y == (p + y)[|p|..];
    }
  }

  /**
   * The probe asks the same question for two requests exactly when their
   * request types agree up to ASCII case and their uriData, pubKey and
   * currentUser agree: `id` and `permissions` never reach the resolver.
   */
  lemma ProbeQueryDeterminedBy(a: SignRequest, b: SignRequest)
    ensures ProbeQuery(a) == ProbeQuery(b) <==>
      && Upper(a.requestType) == Upper(b.requestType)
      && a.uriData == b.uriData && a.pubKey == b.pubKey && a.currentUser == b.currentUser
  {
    SamePrefix(ProviderPrefix, Upper(a.requestType), Upper(b.requestType));
    if ProbeQuery(a) == ProbeQuery(b) {
      var pa := ProbeQuery(a).projection;
      var pb := ProbeQuery(b).projection;
      assert pa[0] == pb[0] && pa[1] == pb[1] && pa[2] == pb[2];
    }
  }

  /**
   * The probe's answer: null on a fault, a null cursor or an empty cursor;
   * otherwise a map holding exactly those of `signature` and `event` that
   * are columns, with their cells (so it may be empty).
   */
  function Probe(c: Cursor): (r: Option<Fields>)
    ensures r.None? <==> !c.Row?
    ensures r.Some? ==> r.value.Keys == c.columns.Keys * {ColumnSignature, ColumnEvent}
    ensures r.Some? ==> forall k :: k in r.value ==> r.value[k] == c.columns[k]
  {
    match c
    case Row(cols) =>
      var withSignature := if ColumnSignature in cols then map[ColumnSignature := cols[ColumnSignature]] else map[];
      var withEvent := if ColumnEvent in cols then withSignature[ColumnEvent := cols[ColumnEvent]] else withSignature;
      Some(withEvent)
    case _ => None
  }

  /** `!data.isNullOrEmpty()`: the probe answered and the answer has at least one field. */
  predicate Answered(r: Option<Fields>)
  {
    r.Some? && |r.value| > 0
  }

  /** The probe answers usefully exactly when the first row has a `signature` or an `event` column. */
  lemma AnsweredIffColumn(c: Cursor)
    ensures Answered(Probe(c)) <==> c.Row? && (ColumnSignature in c.columns || ColumnEvent in c.columns)
  {
  }
}
