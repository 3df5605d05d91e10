/**
 * Handle resolution through DNS (`resolveDns` of the identifier package):
 * the TXT records of `_atproto.<handle>` are looked up, the chunks of each
 * record are joined, the records that start with `did=` are kept, and exactly
 * one of them must exist; the DID is that record without its prefix.
 */
module Resolve {
  import opened Wrappers

  const SUBDOMAIN := "_atproto"
  const PREFIX := "did="

  /** An error thrown by the DNS lookup; `code` is set when it is an errno exception. */
  datatype LookupError = LookupError(code: Option<string>, description: string)

  /** What the TXT lookup yields: every record as its list of character-string chunks, or an error. */
  datatype LookupResult = LookupOk(records: seq<seq<string>>) | LookupErr(error: LookupError)

  /** What resolveDns throws: NoHandleRecordError, or a lookup error re-thrown unchanged. */
  datatype ResolveError = NoHandleRecord | Rethrown(error: LookupError)

  /** The DNS name whose TXT records are queried for a handle. */
  function QueryName(handle: string): (q: string)
    ensures "_atproto." <= q
    ensures q[|"_atproto."|..] == handle
  {
    SUBDOMAIN + "." + handle
  }

  /** The chunks of one TXT record, concatenated in order (`chunks.join('')`). */
  function Join(chunks: seq<string>): (s: string)
    ensures chunks != [] ==> chunks[0] <= s
    ensures |chunks| == 1 ==> s == chunks[0]
  {
    if chunks == [] then "" else chunks[0] + Join(chunks[1..])
  }

  /** Every record of the lookup, joined. */
  function Joined(chunked: seq<seq<string>>): (r: seq<string>)
    ensures |r| == |chunked|
    ensures forall i :: 0 <= i < |chunked| ==> r[i] == Join(chunked[i])
  {
    seq(|chunked|, i requires 0 <= i < |chunked| => Join(chunked[i]))
  }

  /** The records that start with `did=`, in their order (`filter(i => i.startsWith(PREFIX))`). */
  function Found(results: seq<string>): (r: seq<string>)
    ensures forall x :: x in r <==> x in results && PREFIX <= x
    ensures |r| <= |results|
  {
    if results == [] then []
    else if PREFIX <= results[0] then [results[0]] + Found(results[1..])
    else Found(results[1..])
  }

  /** What resolveDns does with a successful lookup. */
  function ExtractDid(chunked: seq<seq<string>>): (r: Result<string, ResolveError>)
    ensures r.Ok? ==> PREFIX + r.value in Joined(chunked)
    ensures r.Err? ==> r.error == NoHandleRecord
  {
    var found := Found(Joined(chunked));
    if |found| != 1 then Err(NoHandleRecord)
    else
      assert found[0] in found;
      assert PREFIX + found[0][|PREFIX|..] == found[0];
      Ok(found[0][|PREFIX|..])
  }

  /** resolveDns, given the DNS TXT lookup as a function of the queried name. */
  function ResolveDns(handle: string, resolveTxt: string -> LookupResult): (r: Result<string, ResolveError>)
    ensures var lookup := resolveTxt(QueryName(handle));
      r.Ok? <==> lookup.LookupOk? && exists i :: UniqueMatch(Joined(lookup.records), i)
    ensures var lookup := resolveTxt(QueryName(handle));
      forall i :: lookup.LookupOk? && UniqueMatch(Joined(lookup.records), i) ==> r == Ok(Join(lookup.records[i])[|PREFIX|..])
    ensures var lookup := resolveTxt(QueryName(handle));
      r.Err? ==> r.error == NoHandleRecord || (lookup.LookupErr? && lookup.error.code != Some("ENOTFOUND") && r.error == Rethrown(lookup.error))
  {
    match resolveTxt(QueryName(handle))
    case LookupErr(e) => if e.code == Some("ENOTFOUND") then Err(NoHandleRecord) else Err(Rethrown(e))
    case LookupOk(chunked) =>
      ExtractDidExactlyOne(chunked);
      ExtractDid(chunked)
  }

  /** The i-th record is the one and only record that starts with `did=`. */
  ghost predicate UniqueMatch(results: seq<string>, i: int) {
    && 0 <= i < |results|
    && PREFIX <= results[i]
    && forall j :: 0 <= j < |results| && j != i ==> !(PREFIX <= results[j])
  }

  // ---------------------------------------------------------------------------
  // The queried name

  /** No name other than `_atproto.<handle>` is looked up: two resolvers that agree on it give the same outcome. */
  lemma OnlyQueryNameLookedUp(handle: string, resolveTxt1: string -> LookupResult, resolveTxt2: string -> LookupResult)
    requires resolveTxt1(QueryName(handle)) == resolveTxt2(QueryName(handle))
    ensures ResolveDns(handle, resolveTxt1) == ResolveDns(handle, resolveTxt2)
  {
  }

  /** A failed lookup: ENOTFOUND becomes NoHandleRecordError, every other error is re-thrown unchanged. */
  lemma LookupErrorMapped(handle: string, resolveTxt: string -> LookupResult)
    requires resolveTxt(QueryName(handle)).LookupErr?
    ensures var e := resolveTxt(QueryName(handle)).error;
      ResolveDns(handle, resolveTxt) == if e.code == Some("ENOTFOUND") then Err(NoHandleRecord) else Err(Rethrown(e))
  {
  }

  // ---------------------------------------------------------------------------
  // Joining chunks

  /** Joining distributes over concatenation of chunk lists. */
  lemma {:induction false} JoinAppend(a: seq<string>, b: seq<string>)
    ensures Join(a + b) == Join(a) + Join(b)
  {
    if a == [] {
      assert a + b == b;
    } else {
      assert (a + b)[1..] == a[1..] + b;
      JoinAppend(a[1..], b);
    }
  }

  /** A record split into two chunks at any point joins back to the record. */
  lemma JoinSplit(record: string, k: int)
    requires 0 <= k <= |record|
    ensures Join([record[..k], record[k..]]) == record
  {
    var x, y := record[..k], record[k..];
    assert [x, y][1..] == [y];
    assert [y][1..] == [];
    assert Join([y]) == y + Join([]) == y;
    assert Join([x, y]) == x + Join([y]);
    assert x + y == record;
  }

  /** Joining the records of a lookup distributes over concatenation of lookups. */
  lemma JoinedAppend(a: seq<seq<string>>, b: seq<seq<string>>)
    ensures Joined(a + b) == Joined(a) + Joined(b)
  {
    assert |Joined(a + b)| == |Joined(a) + Joined(b)|;
    forall i | 0 <= i < |a + b| ensures Joined(a + b)[i] == (Joined(a) + Joined(b))[i] {
      if i < |a| { assert (a + b)[i] == a[i]; } else { assert (a + b)[i] == b[i - |a|]; }
    }
  }

  // ---------------------------------------------------------------------------
  // Filtering

  /** Filtering distributes over concatenation. */
  lemma {:induction false} FoundAppend(a: seq<string>, b: seq<string>)
    ensures Found(a + b) == Found(a) + Found(b)
  {
    if a == [] {
      assert a + b == b;
    } else {
      assert (a + b)[1..] == a[1..] + b;
      FoundAppend(a[1..], b);
    }
  }

  lemma FoundNone(results: seq<string>)
    requires forall j :: 0 <= j < |results| ==> !(PREFIX <= results[j])
    ensures Found(results) == []
  {
    if Found(results) != [] {
      assert Found(results)[0] in Found(results);
    }
  }

  lemma FoundOfUnique(results: seq<string>, i: int)
    requires UniqueMatch(results, i)
    ensures Found(results) == [results[i]]
  {
    var a, b := results[..i], results[i + 1..];
    assert results == a + [results[i]] + b;
    FoundAppend(a + [results[i]], b);
    FoundAppend(a, [results[i]]);
    forall j | 0 <= j < |a| ensures !(PREFIX <= a[j]) { assert a[j] == results[j]; }
    forall j | 0 <= j < |b| ensures !(PREFIX <= b[j]) { assert b[j] == results[i + 1 + j]; }
    FoundNone(a);
    FoundNone(b);
    assert Found([results[i]]) == [results[i]] + Found([]);
  }

  lemma FoundOfTwo(results: seq<string>, i: int, j: int)
    requires 0 <= i < j < |results|
    requires PREFIX <= results[i] && PREFIX <= results[j]
    ensures |Found(results)| >= 2
  {
    var a, b := results[..i + 1], results[i + 1..];
    assert results == a + b;
    FoundAppend(a, b);
    FoundAppend(results[..i], [results[i]]);
    assert a == results[..i] + [results[i]];
    assert Found([results[i]]) == [results[i]] + Found([]);
    assert b[j - i - 1] == results[j];
    assert results[j] in Found(b);
  }

  // ---------------------------------------------------------------------------
  // The exactly-one rule and the prefix

  /**
   * A lookup yields a DID exactly when one record (and no other) starts with
   * `did=`; the DID is then that record without the prefix.
   */
  lemma ExtractDidExactlyOne(chunked: seq<seq<string>>)
    ensures ExtractDid(chunked).Ok? <==> exists i :: UniqueMatch(Joined(chunked), i)
    ensures forall i :: UniqueMatch(Joined(chunked), i) ==> ExtractDid(chunked) == Ok(Join(chunked[i])[|PREFIX|..])
  {
    var results := Joined(chunked);
    forall i | UniqueMatch(results, i) ensures ExtractDid(chunked) == Ok(Join(chunked[i])[|PREFIX|..]) {
      FoundOfUnique(results, i);
    }
    if ExtractDid(chunked).Ok? {
      var r := Found(results)[0];
      assert r in Found(results);
      var i :| 0 <= i < |results| && results[i] == r;
      forall j | 0 <= j < |results| && j != i ensures !(PREFIX <= results[j]) {
        if PREFIX <= results[j] {
          if i < j { FoundOfTwo(results, i, j); } else { FoundOfTwo(results, j, i); }
        }
      }
      assert UniqueMatch(results, i);
    }
  }

  /** No record starting with `did=`: NoHandleRecordError. */
  lemma NoDidRecordRejected(chunked: seq<seq<string>>)
    requires forall i :: 0 <= i < |chunked| ==> !(PREFIX <= Join(chunked[i]))
    ensures ExtractDid(chunked) == Err(NoHandleRecord)
  {
    FoundNone(Joined(chunked));
  }

  /** Two records starting with `did=`, even equal ones: NoHandleRecordError. */
  lemma AmbiguousRecordsRejected(chunked: seq<seq<string>>, i: int, j: int)
    requires 0 <= i < |chunked| && 0 <= j < |chunked| && i != j
    requires PREFIX <= Join(chunked[i]) && PREFIX <= Join(chunked[j])
    ensures ExtractDid(chunked) == Err(NoHandleRecord)
  {
    if i < j { FoundOfTwo(Joined(chunked), i, j); } else { FoundOfTwo(Joined(chunked), j, i); }
  }

  /** The DID returned is the matching record with `did=` removed: prefix plus result gives back the record. */
  lemma PrefixRoundTrip(chunked: seq<seq<string>>, did: string)
    requires ExtractDid(chunked) == Ok(did)
    ensures exists i :: 0 <= i < |chunked| && PREFIX + did == Join(chunked[i]) && |did| == |Join(chunked[i])| - |PREFIX|
  {
    var i :| 0 <= i < |chunked| && Joined(chunked)[i] == PREFIX + did;
  }

  /** Adding a record that does not start with `did=`, anywhere, never changes the outcome. */
  lemma NonDidRecordIgnored(chunked: seq<seq<string>>, k: int, extra: seq<string>)
    requires 0 <= k <= |chunked|
    requires !(PREFIX <= Join(extra))
    ensures ExtractDid(chunked[..k] + [extra] + chunked[k..]) == ExtractDid(chunked)
  {
    var a, b := chunked[..k], chunked[k..];
    assert chunked == a + b;
    JoinedAppend(a + [extra], b);
    JoinedAppend(a, [extra]);
    JoinedAppend(a, b);
    var ja, jb := Joined(a), Joined(b);
    assert Joined([extra]) == [Join(extra)];
    FoundAppend(ja + [Join(extra)], jb);
    FoundAppend(ja, [Join(extra)]);
    FoundAppend(ja, jb);
    assert Found([Join(extra)]) == Found([]);
  }

  /** A DID published as one record, its `did=` prefix split across two chunks at any point, is found. */
  lemma SplitDidRecordResolves(did: string, k: int)
    requires 0 <= k <= |PREFIX + did|
    ensures var record := PREFIX + did;
      ExtractDid([[record[..k], record[k..]]]) == Ok(did)
  {
    var record := PREFIX + did;
    JoinSplit(record, k);
    var chunked := [[record[..k], record[k..]]];
    assert UniqueMatch(Joined(chunked), 0);
    ExtractDidExactlyOne(chunked);
    assert record[|PREFIX|..] == did;
  }
}
