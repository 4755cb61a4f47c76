/** The query-parameter setup of `fetch_tmdb_data`: the caller's dict (or a
    fresh one for `None`) gets the credential, the response locale and the
    adult-content exclusion written into it in place. */
module TmdbClient {

  /** A query-parameter value: the bot passes strings and ints. */
  datatype Param = Text(text: string) | Number(number: int)

  const ApiKeyKey := "api_key"
  const LanguageKey := "language"
  const IncludeAdultKey := "include_adult"
  const Language := "es-ES"
  const IncludeAdult := "false"

  /** The three keys every request carries. */
  const InjectedKeys: set<string> := {ApiKeyKey, LanguageKey, IncludeAdultKey}

  /** The dict after the three writes of lines 34-36. */
  function WithCredentials(m: map<string, Param>, apiKey: string): (r: map<string, Param>)
    ensures r.Keys == m.Keys + InjectedKeys
    ensures r[ApiKeyKey] == Text(apiKey)
    ensures r[LanguageKey] == Text(Language)
    ensures r[IncludeAdultKey] == Text(IncludeAdult)
    ensures forall k :: k in m && k !in InjectedKeys ==> r[k] == m[k]
  {
    m[ApiKeyKey := Text(apiKey)][LanguageKey := Text(Language)][IncludeAdultKey := Text(IncludeAdult)]
  }

  /** Whatever the caller put under the three keys is overridden: two
      dicts that agree elsewhere give the same request. */
  lemma CallerValuesOverridden(m1: map<string, Param>, m2: map<string, Param>, apiKey: string)
    requires forall k :: k !in InjectedKeys ==> (k in m1 <==> k in m2)
    requires forall k :: k in m1 && k !in InjectedKeys ==> k in m2 && m1[k] == m2[k]
    ensures WithCredentials(m1, apiKey) == WithCredentials(m2, apiKey)
  {
    var r1, r2 := WithCredentials(m1, apiKey), WithCredentials(m2, apiKey);
    assert r1.Keys == r2.Keys by {
      forall k ensures k in r1.Keys <==> k in r2.Keys {
        if k !in InjectedKeys {
          assert k in m1 <==> k in m2;
        }
      }
    }
    forall k | k in r1 ensures r1[k] == r2[k] {
      if k !in InjectedKeys {
        assert k in m1;
      }
    }
  }

  /** Preparing an already prepared dict changes nothing. */
  lemma WithCredentialsIdempotent(m: map<string, Param>, apiKey: string)
    ensures WithCredentials(WithCredentials(m, apiKey), apiKey) == WithCredentials(m, apiKey)
  {
    CallerValuesOverridden(WithCredentials(m, apiKey), m, apiKey);
  }

  /** A Python dict of query parameters, shared by reference with the caller. */
  class ParamDict {
    var entries: map<string, Param>

    constructor (entries: map<string, Param>)
      ensures this.entries == entries
    {
      this.entries := entries;
    }

    /** `self[key] = value`. */
    method Set(key: string, value: Param)
      modifies this
      ensures entries == old(entries)[key := value]
    {
      entries := entries[key := value];
    }
  }

  /** Lines 32-36: a `None` dict becomes a fresh one; otherwise the
      caller's own dict is written to, so the caller sees the three keys. */
  method PrepareParams(params: ParamDict?, apiKey: string) returns (p: ParamDict)
    modifies params
    ensures params != null ==> p == params
    ensures params == null ==> fresh(p)
    ensures p.entries == WithCredentials(if params == null then map[] else old(params.entries), apiKey)
  {
    if params == null {
      p := new ParamDict(map[]);
    } else {
      p := params;
    }
    p.Set(ApiKeyKey, Text(apiKey));
    p.Set(LanguageKey, Text(Language));
    p.Set(IncludeAdultKey, Text(IncludeAdult));
  }
}
