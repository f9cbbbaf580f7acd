/**
 * How the `search` view of the web interface reads the posted query: a
 * `term:value` query names the field to search, a bare hexadecimal digest
 * is looked up by its length, and anything else is an error page.  The
 * database lookup that follows and the rendering are not modelled; the
 * classification ends in the query the view would send.
 */
module Search {
  import opened Wrappers
  import opened Text

  /** A results-database filter: a regular expression with options, or an exact value. */
  datatype Query =
    | Regex(field: string, pattern: string, options: string)
    | Exact(field: string, value: string)

  /** What the view does with a request. */
  datatype Outcome =
    | NoSearch                             // no `search` field was posted
    | TooShort(echo: string)               // the term's value has fewer than 3 characters
    | InvalidTerm(echo: string, term: string)
    | Unrecognized                         // neither a term nor a digest
    | Run(query: Query)

  /** The error line the page shows: one for each outcome that neither runs a query nor lacks a search. */
  function ErrorMessage(o: Outcome): (r: Option<string>)
    ensures r.None? <==> o.NoSearch? || o.Run?
    ensures o.InvalidTerm? ==> r.Some? && |o.term| <= |r.value| && r.value[|r.value| - |o.term|..] == o.term
  {
    match o
    case TooShort(_) => Some("Search term too short, minimum 3 characters required")
    case InvalidTerm(_, term) => Some("Invalid search term: " + term)
    case Unrecognized => Some("Unable to recognize the search syntax")
    case _ => None
  }

  /** The terms the view understands. */
  const TermNames: seq<string> :=
    ["name", "type", "string", "ssdeep", "crc32", "file", "key", "mutex", "domain", "ip",
     "signature", "url", "imphash"]

  /** The filter a known term builds from its (left-stripped) value. */
  function TermQuery(term: string, value: string): (r: Option<Query>)
    ensures r.Some? <==> term in TermNames
    ensures r.Some? ==> (r.value.Regex? && r.value.pattern == value) || (r.value.Exact? && r.value.value == value)
  {
    if term == "name" then Some(Regex("target.file.name", value, "-i"))
    else if term == "type" then Some(Regex("target.file.type", value, "-i"))
    else if term == "string" then Some(Regex("strings", value, "-1"))
    else if term == "ssdeep" then Some(Regex("target.file.ssdeep", value, "-i"))
    else if term == "crc32" then Some(Exact("target.file.crc32", value))
    else if term == "file" then Some(Regex("behavior.summary.files", value, "-i"))
    else if term == "key" then Some(Regex("behavior.summary.keys", value, "-i"))
    else if term == "mutex" then Some(Regex("behavior.summary.mutexes", value, "-i"))
    else if term == "domain" then Some(Regex("network.domains.domain", value, "-i"))
    else if term == "ip" then Some(Exact("network.hosts", value))
    else if term == "signature" then Some(Regex("signatures.description", value, "-i"))
    else if term == "url" then Some(Exact("target.url", value))
    else if term == "imphash" then Some(Exact("static.pe_imphash", value))
    else None
  }

  /** `[a-fA-F\d]` on a byte string: ASCII hex digits. */
  predicate IsHexDigit(c: char)
  {
    IsDigit(c) || 'a' <= c <= 'f' || 'A' <= c <= 'F'
  }

  predicate AllHex(s: string)
  {
    forall i :: 0 <= i < |s| ==> IsHexDigit(s[i])
  }

  /**
   * `re.match(r"^([a-fA-F\d]{n})$", v)`: `n` hex digits from the start, then
   * the end of the string, where `$` also matches before a final newline.
   */
  predicate ReMatchHex(v: string, n: nat)
  {
    (|v| == n && AllHex(v)) || (|v| == n + 1 && AllHex(v[..n]) && v[n] == '\n')
  }

  /** The digest lookup tried, in order, when the query names no term. */
  function DigestQuery(v: string): Option<Query>
  {
    if ReMatchHex(v, 32) then Some(Exact("target.file.md5", v))
    else if ReMatchHex(v, 40) then Some(Exact("target.file.sha1", v))
    else if ReMatchHex(v, 64) then Some(Exact("target.file.sha256", v))
    else if ReMatchHex(v, 128) then Some(Exact("target.file.sha512", v))
    else None
  }

  /** `q.split(":", 1)` unpacked into term and value, with `("", q)` when there is no colon. */
  function TermAndValue(q: string): (r: (string, string))
    ensures ':' !in q ==> r == ("", q)
    ensures ':' in q ==> ':' !in r.0 && q == r.0 + ":" + r.1
  {
    match SplitOnce(q, ':')
    case None => ("", q)
    case Some(p) => p
  }

  /** The view's decision for the posted `search` field, if any. */
  function Classify(posted: Option<string>): Outcome
  {
    match posted
    case None => NoSearch
    case Some(raw) =>
      var (term, value) := TermAndValue(Strip(Unicode, raw));
      if term != "" then
        if |value| < 3 then TooShort(raw)
        else match TermQuery(term, LStrip(Unicode, value))
          case None => InvalidTerm(raw, term)
          case Some(q) => Run(q)
      else match DigestQuery(value)
        case None => Unrecognized
        case Some(q) => Run(q)
  }

  // ---------------------------------------------------------------------
  // Properties

  /** The query is cut at its first colon. */
  lemma TermAndValueAt(a: string, b: string)
    requires ':' !in a
    ensures TermAndValue(a + ":" + b) == (a, b)
  {
    SplitOnceAt(a, ':', b);
  }

  /**
   * A query `term:value` with a non-empty term: the length of the value is
   * checked first, on the value before it is left-stripped; then the term
   * picks the filter.
   */
  lemma ClassifyTerm(raw: string, term: string, value: string)
    requires Strip(Unicode, raw) == term + ":" + value && ':' !in term && term != ""
    ensures Classify(Some(raw)) ==
      if |value| < 3 then TooShort(raw)
      else if term in TermNames then Run(TermQuery(term, LStrip(Unicode, value)).value)
      else InvalidTerm(raw, term)
  {
    TermAndValueAt(term, value);
  }

  /** A query without a colon, or with nothing before its first colon, is a digest lookup. */
  lemma ClassifyDigest(raw: string)
    requires ':' !in Strip(Unicode, raw) || Strip(Unicode, raw)[0] == ':'
    ensures var value := if ':' in Strip(Unicode, raw) then Strip(Unicode, raw)[1..] else Strip(Unicode, raw);
      Classify(Some(raw)) == if DigestQuery(value).Some? then Run(DigestQuery(value).value) else Unrecognized
  {
    var q := Strip(Unicode, raw);
    var value := if ':' in q then q[1..] else q;
    if ':' in q {
      LeadingColon(q);
    }
    ClassifyNoTerm(raw, value);
  }

  lemma LeadingColon(q: string)
    requires q != [] && q[0] == ':'
    ensures TermAndValue(q) == ("", q[1..])
  {
    assert q == "" + ":" + q[1..];
    TermAndValueAt("", q[1..]);
  }

  lemma ClassifyNoTerm(raw: string, value: string)
    requires TermAndValue(Strip(Unicode, raw)) == ("", value)
    ensures Classify(Some(raw)) == if DigestQuery(value).Some? then Run(DigestQuery(value).value) else Unrecognized
  {
  }

  /**
   * On a value that does not end in whitespace — every value the view
   * tests — the digest patterns accept exactly the hex strings of length
   * 32, 40, 64 and 128, mapped to md5, sha1, sha256 and sha512.
   */
  lemma DigestByLength(v: string)
    requires v == [] || !IsUnicodeSpace(v[|v| - 1])
    ensures DigestQuery(v) == Some(Exact("target.file.md5", v)) <==> AllHex(v) && |v| == 32
    ensures DigestQuery(v) == Some(Exact("target.file.sha1", v)) <==> AllHex(v) && |v| == 40
    ensures DigestQuery(v) == Some(Exact("target.file.sha256", v)) <==> AllHex(v) && |v| == 64
    ensures DigestQuery(v) == Some(Exact("target.file.sha512", v)) <==> AllHex(v) && |v| == 128
    ensures DigestQuery(v).None? <==> !AllHex(v) || |v| !in {32, 40, 64, 128}
  {
    assert forall n: nat :: ReMatchHex(v, n) <==> |v| == n && AllHex(v);
  }

  /** The values the view tests do not end in whitespace. */
  lemma TestedValuesUnspaced(raw: string)
    ensures var value := TermAndValue(Strip(Unicode, raw)).1;
      value == [] || !IsUnicodeSpace(value[|value| - 1])
  {
    var q := Strip(Unicode, raw);
    if ':' in q {
      var p := TermAndValue(q);
      assert q == p.0 + ":" + p.1;
      assert p.1 != [] ==> p.1[|p.1| - 1] == q[|q| - 1];
    }
  }

  /** Every filter a term query builds has a non-empty value. */
  lemma TermValueNonEmpty(raw: string)
    requires TermAndValue(Strip(Unicode, raw)).0 != "" && Classify(Some(raw)).Run?
    ensures var q := Classify(Some(raw)).query;
      (q.Regex? && q.pattern != []) || (q.Exact? && q.value != [])
  {
    var (term, value) := TermAndValue(Strip(Unicode, raw));
    ClassifyTerm(raw, term, value);
    TestedValuesUnspaced(raw);
  }

  /**
   * Because the length is checked before stripping, a value of one
   * character behind enough padding is accepted, as in `name:  a`.
   */
  lemma PaddedShortValueAccepted(raw: string, term: string, pad: string, c: char)
    requires Strip(Unicode, raw) == term + ":" + (pad + [c]) && term != "" && ':' !in term
    requires |pad| >= 2 && (forall i :: 0 <= i < |pad| ==> IsUnicodeSpace(pad[i])) && !IsUnicodeSpace(c)
    ensures Classify(Some(raw)) ==
      if term in TermNames then Run(TermQuery(term, [c]).value) else InvalidTerm(raw, term)
  {
    ClassifyTerm(raw, term, pad + [c]);
    LStripPadding(Unicode, pad, [c]);
  }

  /**
   * A digest wrapped in Unicode whitespace, such as a no-break space after
   * an md5, is still looked up by that digest: the `unicode` strip removes it.
   */
  lemma DigestBehindUnicodePadding(pre: string, h: string, post: string)
    requires forall i :: 0 <= i < |pre| ==> IsUnicodeSpace(pre[i])
    requires forall i :: 0 <= i < |post| ==> IsUnicodeSpace(post[i])
    requires AllHex(h) && |h| == 32
    ensures Classify(Some(pre + h + post)) == Run(Exact("target.file.md5", h))
  {
    assert !IsUnicodeSpace(h[0]) && !IsUnicodeSpace(h[|h| - 1]);
    StripPadded(Unicode, pre, h, post);
    assert ':' !in h by {
      forall i | 0 <= i < |h| ensures h[i] != ':' {
        assert IsHexDigit(h[i]);
      }
    }
    ClassifyDigest(pre + h + post);
    DigestByLength(h);
  }
}
