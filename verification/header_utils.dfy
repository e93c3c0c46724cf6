/** Header handling of the page script (interceptor/headerUtils.ts): the
    sanitizing of captured headers, cookie lookup, the normalisation of the
    Bearer credential (section 2.1 of RFC 6750) and the assembly of the
    headers a replayed GraphQL request carries. Records are given as their
    entries in iteration order; the browser's globals, storage, cookie
    string and `decodeURIComponent` are parameters. */
module HeaderUtils {
  import opened Wrappers
  import opened Text
  import opened Ordered

  /** `Object.entries` of a string record, in iteration order. */
  type Entries = seq<(string, string)>

  type Headers = Dict<string>

  const Ignored: set<string> := {"content-length", "host", "origin", "referer"}

  /** The two copy loops: `sanitizeHeaders` keeps any value but drops empty
      and ignored keys; the merge in `buildGraphqlHeaders` drops empty keys
      and empty values. */
  datatype Mode = Sanitizing | Merging

  predicate Keeps(mode: Mode, e: (string, string)) {
    match mode
    case Sanitizing => e.0 != "" && ToLower(e.0) !in Ignored
    case Merging => e.0 != "" && e.1 != ""
  }

  /** The loop: each kept entry is written under its lower-cased key, so a
      later entry overwrites an earlier one. */
  function Copy(h: Headers, entries: Entries, mode: Mode): (r: Headers)
    ensures h.Valid() ==> r.Valid()
    decreases |entries|
  {
    if entries == [] then h
    else
      var e := entries[|entries| - 1];
      var before := Copy(h, entries[..|entries| - 1], mode);
      if Keeps(mode, e) then before.Put(ToLower(e.0), e.1) else before
  }

  /** The reference reading: the value of the last kept entry whose key
      lower-cases to `k`. */
  function LastWrite(entries: Entries, k: string, mode: Mode): (r: Option<string>)
    ensures r.Some? ==> exists e :: e in entries && Keeps(mode, e) && ToLower(e.0) == k && e.1 == r.value
    decreases |entries|
  {
    if entries == [] then None
    else
      var e := entries[|entries| - 1];
      if Keeps(mode, e) && ToLower(e.0) == k then Some(e.1)
      else LastWrite(entries[..|entries| - 1], k, mode)
  }

  /** What the loop leaves under `k`: the last kept write, else what was
      there before. */
  lemma {:induction false} CopyReadsLastWrite(h: Headers, entries: Entries, mode: Mode, k: string)
    ensures Copy(h, entries, mode).Get(k) == Or(LastWrite(entries, k, mode), h.Get(k))
    decreases |entries|
  {
    if entries != [] {
      CopyReadsLastWrite(h, entries[..|entries| - 1], mode, k);
    }
  }

  lemma LowerIdempotent(s: string)
    ensures ToLower(ToLower(s)) == ToLower(s)
  {
  }

  /** `sanitizeHeaders`: every key is lower-case, non-empty and not one of
      the four ignored names, and reads the last value written to it in any
      casing. */
  function SanitizeHeaders(headers: Entries): (r: Headers)
    ensures r.Valid()
    ensures forall k :: k in r.m ==> k != "" && ToLower(k) == k && k !in Ignored
    ensures forall k :: r.Get(k) == LastWrite(headers, k, Sanitizing)
  {
    var r := Copy(EmptyDict(), headers, Sanitizing);
    forall k ensures r.Get(k) == LastWrite(headers, k, Sanitizing) {
      CopyReadsLastWrite(EmptyDict(), headers, Sanitizing, k);
    }
    forall k | k in r.m ensures k != "" && ToLower(k) == k && k !in Ignored {
      assert r.Get(k).Some?;
      var e :| e in headers && Keeps(Sanitizing, e) && ToLower(e.0) == k && e.1 == r.Get(k).value;
      LowerIdempotent(e.0);
    }
    r
  }

  /* ------------------------------ cookies ----------------------------- */

  /** The name of one `document.cookie` part: the trimmed part up to its
      first `=`. */
  function CookieName(part: string): string {
    Split(Trim(part), '=')[0]
  }

  /** Its value before decoding: everything after the first `=`, later `=`
      included. */
  function CookieRest(part: string): string {
    Join(Split(Trim(part), '=')[1..], '=')
  }

  /** The name and raw value are the two sides of the first `=`. */
  lemma CookieSides(part: string)
    ensures IndexOf(Trim(part), "=").Some? ==>
              var i := IndexOf(Trim(part), "=").value;
              CookieName(part) == Trim(part)[..i] && CookieRest(part) == Trim(part)[i + 1..]
    ensures IndexOf(Trim(part), "=").None? ==> CookieName(part) == Trim(part) && CookieRest(part) == ""
  {
    RestAfterFirstSeparator(Trim(part), '=');
  }

  /** The loop of `getCookieValue` over the parts: a part with an empty
      name is skipped, the first part named `name` gives its decoded value. */
  function FindCookie(parts: seq<string>, name: string, decode: string -> string): (r: Option<string>)
    ensures r.Some? <==> name != "" && exists i :: 0 <= i < |parts| && CookieName(parts[i]) == name
  {
    if parts == [] then None
    else
      var rawKey := CookieName(parts[0]);
      var rest := FindCookie(parts[1..], name, decode);
      assert forall i :: 1 <= i < |parts| ==> parts[i] == parts[1..][i - 1];
      if rawKey == "" then rest
      else if rawKey == name then Some(decode(CookieRest(parts[0])))
      else
        assert forall i :: 0 <= i < |parts[1..]| ==> parts[1..][i] == parts[i + 1];
        rest
  }

  /** The first part named `name` decides, and its value is everything
      after its first `=`. */
  lemma {:induction false} FindCookieFirst(parts: seq<string>, name: string, decode: string -> string, i: nat)
    requires i < |parts| && name != "" && CookieName(parts[i]) == name
    requires forall j :: 0 <= j < i ==> CookieName(parts[j]) != name
    ensures FindCookie(parts, name, decode) == Some(decode(CookieRest(parts[i])))
    decreases i
  {
    if i > 0 {
      assert CookieName(parts[0]) != name;
      FindCookieFirst(parts[1..], name, decode, i - 1);
    }
  }

  /** `getCookieValue(name)` on the cookie string (absent means no
      cookies). */
  function GetCookieValue(cookie: Option<string>, name: string, decode: string -> string): (r: Option<string>)
    ensures cookie.None? ==> r.None?
    ensures cookie.Some? ==> r == FindCookie(Split(cookie.value, ';'), name, decode)
  {
    if cookie.None? then None else FindCookie(Split(cookie.value, ';'), name, decode)
  }

  /* --------------------------- authorization -------------------------- */

  const BearerPrefix := "Bearer "

  /** `normalizeAuthorization`: nothing for a missing or empty value; the
      "Bearer " scheme prefix added only when it is missing. */
  function NormalizeAuthorization(value: Option<string>): (r: Option<string>)
    ensures r.None? <==> !Truthy(value)
    ensures r.Some? ==> StartsWith(r.value, BearerPrefix)
    ensures Truthy(value) && StartsWith(value.value, BearerPrefix) ==> r == value
    ensures Truthy(value) && !StartsWith(value.value, BearerPrefix) ==> r == Some(BearerPrefix + value.value)
  {
    if !Truthy(value) then None
    else if StartsWith(value.value, BearerPrefix) then value
    else
      assert (BearerPrefix + value.value)[..|BearerPrefix|] == BearerPrefix;
      Some(BearerPrefix + value.value)
  }

  /** Normalising twice is normalising once. */
  lemma NormalizeIdempotent(value: Option<string>)
    ensures NormalizeAuthorization(NormalizeAuthorization(value)) == NormalizeAuthorization(value)
  {
  }

  /** One storage slot: `storage.key(i)` and `storage.getItem(key)`. */
  datatype Slot = Slot(key: Option<string>, value: Option<string>)

  /** `sniffAuthorizationFromStorage` over the slots from `i` on: the first
      slot with a key and a non-empty value whose trimmed value is
      non-empty gives its normalised form. The `bearerToken` JSON branch is
      reached only when the trimmed value is empty; `parseBearer` stands
      for `JSON.parse(raw)?.bearerToken ?? parsed?.session?.bearerToken`. */
  function SniffSlots(slots: seq<Slot>, parseBearer: string -> Option<string>): (r: Option<string>)
    ensures r.Some? ==> StartsWith(r.value, BearerPrefix)
    decreases |slots|
  {
    if slots == [] then None
    else
      var slot := slots[0];
      if !Truthy(slot.key) || !Truthy(slot.value) then SniffSlots(slots[1..], parseBearer)
      else
        var raw := slot.value.value;
        var normalized := NormalizeAuthorization(Some(Trim(raw)));
        if normalized.Some? then normalized
        else if Contains(raw, "bearerToken") && NormalizeAuthorization(parseBearer(raw)).Some? then
          NormalizeAuthorization(parseBearer(raw))
        else SniffSlots(slots[1..], parseBearer)
  }

  /** A value whose trim is empty is all white space, so it cannot contain
      "bearerToken": the JSON branch never decides anything. */
  lemma {:induction false} JsonBranchUnreachable(slots: seq<Slot>, p: string -> Option<string>, q: string -> Option<string>)
    ensures SniffSlots(slots, p) == SniffSlots(slots, q)
    decreases |slots|
  {
    if slots != [] {
      JsonBranchUnreachable(slots[1..], p, q);
      var slot := slots[0];
      if Truthy(slot.key) && Truthy(slot.value) && Trim(slot.value.value) == "" {
        SpaceHasNoToken(slot.value.value);
      }
    }
  }

  lemma SpaceHasNoToken(raw: string)
    requires Trim(raw) == ""
    ensures !Contains(raw, "bearerToken")
  {
    forall i: nat | i + 11 <= |raw| ensures !OccursAt(raw, "bearerToken", i) {
      assert raw[i..i + 11][0] == raw[i];
      assert IsSpace(raw[i]);
    }
  }

  /** The first slot with a key and a value that is not all white space
      gives the credential. */
  lemma {:induction false} SniffFindsFirstValue(slots: seq<Slot>, parse: string -> Option<string>, i: nat)
    requires i < |slots| && Truthy(slots[i].key) && Truthy(slots[i].value) && Trim(slots[i].value.value) != ""
    requires forall j :: 0 <= j < i ==> !Truthy(slots[j].key) || !Truthy(slots[j].value) || Trim(slots[j].value.value) == ""
    ensures SniffSlots(slots, parse) == NormalizeAuthorization(Some(Trim(slots[i].value.value)))
    decreases i
  {
    if i > 0 {
      JsonBranchUnreachable(slots, parse, (s: string) => None);
      JsonBranchUnreachable(slots[1..], parse, (s: string) => None);
      SniffFindsFirstValue(slots[1..], parse, i - 1);
    }
  }

  /** `sniffAuthorizationFromStorage(storage)`: nothing without a storage. */
  function SniffStorage(storage: Option<seq<Slot>>, parseBearer: string -> Option<string>): (r: Option<string>)
    ensures storage.None? ==> r.None?
    ensures r.Some? ==> StartsWith(r.value, BearerPrefix)
  {
    if storage.None? then None else SniffSlots(storage.value, parseBearer)
  }

  /** `sniffAuthorizationFromGlobals`: the first candidate token (from the
      page's initial-state globals, in the source's order) that normalises,
      else local storage, else session storage. */
  function SniffGlobals(candidates: seq<Option<string>>, local: Option<seq<Slot>>, session: Option<seq<Slot>>,
                        parseBearer: string -> Option<string>): (r: Option<string>)
    ensures r.Some? ==> StartsWith(r.value, BearerPrefix)
    ensures (exists i :: 0 <= i < |candidates| && Truthy(candidates[i])) ==> r.Some?
    ensures candidates != [] && Truthy(candidates[0]) ==> r == NormalizeAuthorization(candidates[0])
    ensures forall i :: 0 <= i < |candidates| && Truthy(candidates[i])
                          && (forall j :: 0 <= j < i ==> !Truthy(candidates[j])) ==>
              r == NormalizeAuthorization(candidates[i])
    ensures (forall i :: 0 <= i < |candidates| ==> !Truthy(candidates[i])) ==>
              r == Or(SniffStorage(local, parseBearer), SniffStorage(session, parseBearer))
  {
    if candidates != [] then
      var n := NormalizeAuthorization(candidates[0]);
      if n.Some? then n
      else
        assert forall i :: 1 <= i < |candidates| ==> candidates[i] == candidates[1..][i - 1];
        SniffGlobals(candidates[1..], local, session, parseBearer)
    else
      var fromLocal := SniffStorage(local, parseBearer);
      if fromLocal.Some? then fromLocal else SniffStorage(session, parseBearer)
  }

  /* ------------------------------ assembly ----------------------------- */

  /** The browser facts `buildGraphqlHeaders` reads. */
  datatype Browser = Browser(
    cookie: Option<string>,
    documentLang: Option<string>,
    navigatorLanguage: Option<string>,
    navigatorLanguages: Option<seq<string>>,
    candidates: seq<Option<string>>,
    localStorage: Option<seq<Slot>>,
    sessionStorage: Option<seq<Slot>>)

  /** `record.authorization`: the exact key, not lower-cased. */
  function RecordGet(entries: Entries, k: string): (r: Option<string>)
    ensures r.Some? ==> (k, r.value) in entries
    decreases |entries|
  {
    if entries == [] then None
    else if entries[|entries| - 1].0 == k then Some(entries[|entries| - 1].1)
    else RecordGet(entries[..|entries| - 1], k)
  }

  /** Writes `v` under `k` unless a truthy value is there. */
  function SetDefault(h: Headers, k: string, v: string): (r: Headers)
    ensures h.Valid() ==> r.Valid()
    ensures Truthy(h.Get(k)) ==> r == h
    ensures !Truthy(h.Get(k)) ==> r.Get(k) == Some(v)
    ensures forall j :: j != k ==> r.Get(j) == h.Get(j)
  {
    if Truthy(h.Get(k)) then h else h.Put(k, v)
  }

  /** The template's headers, then the latest captured ones, written over
      them; no value is empty. */
  function Merged(template: Option<Entries>, latest: Option<Entries>): (r: Headers)
    ensures r.Valid()
    ensures forall k :: k in r.m ==> r.m[k] != ""
  {
    var t := Copy(EmptyDict(), template.GetOr([]), Merging);
    var r := Copy(t, latest.GetOr([]), Merging);
    forall k | k in r.m ensures r.m[k] != "" {
      CopyReadsLastWrite(EmptyDict(), template.GetOr([]), Merging, k);
      CopyReadsLastWrite(t, latest.GetOr([]), Merging, k);
    }
    r
  }

  /** A merged header reads the last non-empty value the latest headers
      give it in any casing, else the template's. */
  lemma MergedReads(template: Option<Entries>, latest: Option<Entries>, k: string)
    ensures Merged(template, latest).Get(k) == Or(LastWrite(latest.GetOr([]), k, Merging), LastWrite(template.GetOr([]), k, Merging))
  {
    var t := Copy(EmptyDict(), template.GetOr([]), Merging);
    CopyReadsLastWrite(EmptyDict(), template.GetOr([]), Merging, k);
    CopyReadsLastWrite(t, latest.GetOr([]), Merging, k);
  }

  function NonEmpty(xs: seq<string>): (r: seq<string>)
    ensures forall x :: x in r <==> x in xs && x != ""
  {
    if xs == [] then [] else (if xs[0] != "" then [xs[0]] else []) + NonEmpty(xs[1..])
  }

  /** The accept-language default: the non-empty preferred languages joined
      with commas, else the navigator language, else "en-US". */
  function AcceptLanguage(b: Browser): string {
    var languages := if b.navigatorLanguages.Some? then Join(NonEmpty(b.navigatorLanguages.value), ',') else "";
    OrElse(Some(languages), OrElse(b.navigatorLanguage, Some("en-US"))).value
  }

  /** `record?.authorization`: nothing for a missing record. */
  function AuthorizationOf(record: Option<Entries>): Option<string> {
    if record.Some? then RecordGet(record.value, "authorization") else None
  }

  /** Where the credential comes from, in order: the merged headers, the
      latest captured headers, the template, the page's globals and
      storage. The first source with a value wins. */
  function ResolveAuthorization(merged: Headers, template: Option<Entries>, latest: Option<Entries>, b: Browser,
                                parseBearer: string -> Option<string>): (r: Option<string>)
    ensures r.Some? ==> StartsWith(r.value, BearerPrefix)
    ensures Truthy(merged.Get("authorization")) ==> r == NormalizeAuthorization(merged.Get("authorization"))
    ensures !Truthy(merged.Get("authorization")) && Truthy(AuthorizationOf(latest)) ==>
              r == NormalizeAuthorization(AuthorizationOf(latest))
    ensures !Truthy(merged.Get("authorization")) && !Truthy(AuthorizationOf(latest)) && Truthy(AuthorizationOf(template)) ==>
              r == NormalizeAuthorization(AuthorizationOf(template))
    ensures !Truthy(merged.Get("authorization")) && !Truthy(AuthorizationOf(latest)) && !Truthy(AuthorizationOf(template)) ==>
              r == SniffGlobals(b.candidates, b.localStorage, b.sessionStorage, parseBearer)
  {
    var fromMerged := NormalizeAuthorization(merged.Get("authorization"));
    if fromMerged.Some? then fromMerged
    else
      var fromLatest := NormalizeAuthorization(AuthorizationOf(latest));
      if fromLatest.Some? then fromLatest
      else
        var fromTemplate := NormalizeAuthorization(AuthorizationOf(template));
        if fromTemplate.Some? then fromTemplate
        else SniffGlobals(b.candidates, b.localStorage, b.sessionStorage, parseBearer)
  }

  /** The keys `buildGraphqlHeaders` writes after the merge. */
  const Written: set<string> := {"x-csrf-token", "x-twitter-active-user", "x-twitter-client-language",
                                 "accept-language", "accept", "authorization", "x-twitter-auth-type", "content-type"}

  /** The header reads `before`'s value when that is truthy, `v` otherwise. */
  predicate DefaultedTo(before: Headers, after: Headers, k: string, v: string) {
    after.Get(k) == (if Truthy(before.Get(k)) then before.Get(k) else Some(v))
  }

  function ClientLanguage(b: Browser): string {
    OrElse(b.documentLang, OrElse(b.navigatorLanguage, Some("en"))).value
  }

  /** The four defaults written before the credential is resolved. */
  function RequestDefaults(h: Headers, b: Browser): (r: Headers)
    ensures h.Valid() ==> r.Valid()
    ensures forall k :: DefaultsFrom(h, r, k, b)
  {
    var h1 := SetDefault(h, "x-twitter-active-user", "yes");
    var h2 := SetDefault(h1, "x-twitter-client-language", ClientLanguage(b));
    var h3 := SetDefault(h2, "accept-language", AcceptLanguage(b));
    var r := SetDefault(h3, "accept", "*/*");
    forall k ensures DefaultsFrom(h, r, k, b) {
      if k == "x-twitter-active-user" {
      } else if k == "x-twitter-client-language" {
      } else if k == "accept-language" {
      } else if k == "accept" {
      } else {
        assert r.Get(k) == h3.Get(k) == h2.Get(k) == h1.Get(k) == h.Get(k);
      }
    }
    r
  }

  /** The credential, when one was found, then the last two defaults. */
  function FinishHeaders(h: Headers, auth: Option<string>): (r: Headers)
    ensures h.Valid() ==> r.Valid()
    ensures forall k :: FinishedFrom(h, r, k, auth)
  {
    var h1 := if auth.Some? then h.Put("authorization", auth.value) else h;
    var h2 := SetDefault(h1, "x-twitter-auth-type", "OAuth2Session");
    var r := SetDefault(h2, "content-type", "application/json");
    forall k ensures FinishedFrom(h, r, k, auth) {
      if k == "authorization" {
      } else if k == "x-twitter-auth-type" {
      } else if k == "content-type" {
      } else {
        assert r.Get(k) == h2.Get(k) == h1.Get(k) == h.Get(k);
      }
    }
    r
  }

  /** What the credential and the last two defaults leave under `k`. */
  predicate FinishedFrom(before: Headers, after: Headers, k: string, auth: Option<string>) {
    if k == "authorization" then after.Get(k) == (if auth.Some? then auth else before.Get(k))
    else if k == "x-twitter-auth-type" then DefaultedTo(before, after, k, "OAuth2Session")
    else if k == "content-type" then DefaultedTo(before, after, k, "application/json")
    else after.Get(k) == before.Get(k)
  }

  /** The merged headers with the CSRF token of the `ct0` cookie, when it
      has a non-empty value, and the four request defaults. */
  function Prepared(template: Option<Entries>, latest: Option<Entries>, b: Browser, decode: string -> string): (r: Headers)
    ensures r.Valid()
    ensures var csrf := GetCookieValue(b.cookie, "ct0", decode);
            r.Get("x-csrf-token") == (if Truthy(csrf) then csrf else Merged(template, latest).Get("x-csrf-token"))
    ensures forall k :: k != "x-csrf-token" ==> DefaultsFrom(Merged(template, latest), r, k, b)
  {
    var merged := Merged(template, latest);
    var csrf := GetCookieValue(b.cookie, "ct0", decode);
    var h := if Truthy(csrf) then merged.Put("x-csrf-token", csrf.value) else merged;
    var r := RequestDefaults(h, b);
    assert DefaultsFrom(h, r, "x-csrf-token", b);
    forall k | k != "x-csrf-token" ensures DefaultsFrom(merged, r, k, b) {
      assert h.Get(k) == merged.Get(k);
      assert DefaultsFrom(h, r, k, b);
    }
    r
  }

  /** What the four request defaults leave under `k`. */
  predicate DefaultsFrom(before: Headers, after: Headers, k: string, b: Browser) {
    if k == "x-twitter-active-user" then DefaultedTo(before, after, k, "yes")
    else if k == "x-twitter-client-language" then DefaultedTo(before, after, k, ClientLanguage(b))
    else if k == "accept-language" then DefaultedTo(before, after, k, AcceptLanguage(b))
    else if k == "accept" then DefaultedTo(before, after, k, "*/*")
    else after.Get(k) == before.Get(k)
  }

  /** `buildGraphqlHeaders(templateHeaders)`, with `latest` the most
      recently captured headers. The credential is present exactly when one
      was resolved; the keys it does not write keep their merged values. */
  function BuildGraphqlHeaders(template: Option<Entries>, latest: Option<Entries>, b: Browser,
                               decode: string -> string, parseBearer: string -> Option<string>): (r: Headers)
    ensures r.Valid()
    ensures r.Get("authorization") == ResolveAuthorization(Merged(template, latest), template, latest, b, parseBearer)
    ensures forall k :: k !in Written ==> r.Get(k) == Merged(template, latest).Get(k)
  {
    var merged := Merged(template, latest);
    var auth := ResolveAuthorization(merged, template, latest, b, parseBearer);
    var h := Prepared(template, latest, b, decode);
    assert DefaultsFrom(merged, h, "authorization", b);
    var r := FinishHeaders(h, auth);
    assert FinishedFrom(h, r, "authorization", auth);
    forall k | k !in Written ensures r.Get(k) == merged.Get(k) {
      assert k != "x-csrf-token" && k != "authorization" && k != "x-twitter-auth-type" && k != "content-type";
      assert DefaultsFrom(merged, h, k, b);
      assert FinishedFrom(h, r, k, auth);
    }
    r
  }

  /** The CSRF token comes from the `ct0` cookie when that has a value. */
  lemma BuildGraphqlHeadersCsrf(template: Option<Entries>, latest: Option<Entries>, b: Browser,
                                decode: string -> string, parseBearer: string -> Option<string>)
    ensures var csrf := GetCookieValue(b.cookie, "ct0", decode);
            var r := BuildGraphqlHeaders(template, latest, b, decode, parseBearer);
            r.Get("x-csrf-token") == (if Truthy(csrf) then csrf else Merged(template, latest).Get("x-csrf-token"))
  {
    var merged := Merged(template, latest);
    var h := Prepared(template, latest, b, decode);
    var r := BuildGraphqlHeaders(template, latest, b, decode, parseBearer);
    var auth := ResolveAuthorization(merged, template, latest, b, parseBearer);
    assert FinishedFrom(h, r, "x-csrf-token", auth);
  }

  /** The client headers are written only where the merged headers have
      nothing. */
  lemma BuildGraphqlHeadersClient(template: Option<Entries>, latest: Option<Entries>, b: Browser,
                                  decode: string -> string, parseBearer: string -> Option<string>)
    ensures var merged := Merged(template, latest);
            var r := BuildGraphqlHeaders(template, latest, b, decode, parseBearer);
            DefaultedTo(merged, r, "x-twitter-active-user", "yes")
            && DefaultedTo(merged, r, "x-twitter-client-language", ClientLanguage(b))
  {
    var merged := Merged(template, latest);
    var h := Prepared(template, latest, b, decode);
    var r := BuildGraphqlHeaders(template, latest, b, decode, parseBearer);
    var auth := ResolveAuthorization(merged, template, latest, b, parseBearer);
    assert DefaultsFrom(merged, h, "x-twitter-client-language", b);
    assert FinishedFrom(h, r, "x-twitter-client-language", auth);
    assert DefaultsFrom(merged, h, "x-twitter-active-user", b);
    assert FinishedFrom(h, r, "x-twitter-active-user", auth);
  }

  /** The two accept headers are written only where the merged headers
      have nothing. */
  lemma BuildGraphqlHeadersAccept(template: Option<Entries>, latest: Option<Entries>, b: Browser,
                                  decode: string -> string, parseBearer: string -> Option<string>)
    ensures var merged := Merged(template, latest);
            var r := BuildGraphqlHeaders(template, latest, b, decode, parseBearer);
            DefaultedTo(merged, r, "accept-language", AcceptLanguage(b))
            && DefaultedTo(merged, r, "accept", "*/*")
  {
    var merged := Merged(template, latest);
    var h := Prepared(template, latest, b, decode);
    var r := BuildGraphqlHeaders(template, latest, b, decode, parseBearer);
    var auth := ResolveAuthorization(merged, template, latest, b, parseBearer);
    assert DefaultsFrom(merged, h, "accept", b);
    assert FinishedFrom(h, r, "accept", auth);
    assert DefaultsFrom(merged, h, "accept-language", b);
    assert FinishedFrom(h, r, "accept-language", auth);
  }

  /** The auth type and the content type are defaulted last, again only
      where the merged headers have nothing. */
  lemma BuildGraphqlHeadersLastDefaults(template: Option<Entries>, latest: Option<Entries>, b: Browser,
                                        decode: string -> string, parseBearer: string -> Option<string>)
    ensures var merged := Merged(template, latest);
            var r := BuildGraphqlHeaders(template, latest, b, decode, parseBearer);
            DefaultedTo(merged, r, "x-twitter-auth-type", "OAuth2Session")
            && DefaultedTo(merged, r, "content-type", "application/json")
  {
    var merged := Merged(template, latest);
    var h := Prepared(template, latest, b, decode);
    var r := BuildGraphqlHeaders(template, latest, b, decode, parseBearer);
    var auth := ResolveAuthorization(merged, template, latest, b, parseBearer);
    assert DefaultsFrom(merged, h, "x-twitter-auth-type", b);
    assert FinishedFrom(h, r, "x-twitter-auth-type", auth);
    assert DefaultsFrom(merged, h, "content-type", b);
    assert FinishedFrom(h, r, "content-type", auth);
  }

  /** What every replayed request shares: the most recently captured
      headers and the browser facts the header assembly reads. */
  datatype Replay = Replay(latest: Option<Entries>, browser: Browser,
                           decode: string -> string, parseBearer: string -> Option<string>)

  /** `buildGraphqlHeaders(template)` in a replay context. */
  function ReplayHeaders(template: Option<Entries>, ctx: Replay): Headers {
    BuildGraphqlHeaders(template, ctx.latest, ctx.browser, ctx.decode, ctx.parseBearer)
  }

  /** The copy loop that fills a fetch `Headers` object: keys in iteration
      order, empty keys and empty values skipped. */
  function KeepNonEmpty(keys: seq<string>, m: map<string, string>): (r: Headers)
    ensures r.Valid()
    ensures forall k :: r.Get(k) == (if k in keys && k != "" && k in m && m[k] != "" then Some(m[k]) else None)
    decreases |keys|
  {
    if keys == [] then EmptyDict()
    else
      var k := keys[|keys| - 1];
      var before := KeepNonEmpty(keys[..|keys| - 1], m);
      assert forall j :: j in keys <==> j in keys[..|keys| - 1] || j == k;
      if k != "" && k in m && m[k] != "" then
        var r := before.Put(k, m[k]);
        assert forall j :: r.Get(j) == (if j == k then Some(m[k]) else before.Get(j));
        r
      else
        assert before.Get(k) == None;
        before
  }

  /** The headers a replay hands to `fetch`: the record's non-empty
      entries. */
  function FetchHeaders(source: Headers): (r: Headers)
    ensures r.Valid()
    ensures forall k :: r.Get(k) == (if k in source.keys && k != "" && Truthy(source.Get(k)) then source.Get(k) else None)
  {
    KeepNonEmpty(source.keys, source.m)
  }
}
