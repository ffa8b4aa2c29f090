/**
 * The import storage: enumerating the bucket's object names page by page,
 * and turning one object key into a task payload.
 */
module ImportStorage {
  import opened Wrappers
  import opened OciTypes
  import opened Text

  // ---------------------------------------------------------------------
  // Key enumeration
  // ---------------------------------------------------------------------

  /** One page of the bucket listing: object names in listing order, and the cursor. */
  datatype Page = Page(objects: seq<string>, nextStartWith: Option<string>)

  /** What one listing call did: returned a page, or raised. */
  datatype ListResponse = Listed(page: Page) | ListFailed(error: Error)

  /**
   * The arguments of one listing call. There is no prefix argument: the
   * whole bucket is listed. The delimiter "/" and the requested fields are
   * the same on every call.
   */
  datatype ListCall = ListCall(namespace: string, bucket: Option<string>, start: Option<string>)

  /** The regex engine: whether a pattern matches a name at position 0 (`re.match`). */
  type Matcher = (string, string) -> bool

  /** The prefix the enumeration works with: the bucket prefix when truthy, else "". */
  function ListingPrefix(c: StorageConfig): (p: string)
    ensures p == "" <==> !Truthy(c.bucketPrefix)
    ensures p != "" ==> p == c.bucketPrefix.value
  {
    if Truthy(c.bucketPrefix) then c.bucketPrefix.value else ""
  }

  /**
   * The directory-marker name that is skipped: the prefix without its
   * trailing slashes, followed by exactly one slash.
   */
  function DirectoryMarker(c: StorageConfig): (marker: string)
    ensures |marker| >= 1 && marker[|marker| - 1] == '/'
    ensures |marker| >= 2 ==> marker[|marker| - 2] != '/'
    ensures marker[..|marker| - 1] <= ListingPrefix(c)
    ensures forall i :: |marker| - 1 <= i < |ListingPrefix(c)| ==> ListingPrefix(c)[i] == '/'
  {
    var stripped := RStrip(ListingPrefix(c), '/');
    assert (stripped + "/")[..|stripped|] == stripped;
    stripped + "/"
  }

  /**
   * What decides whether a listed name is yielded, fixed before the first
   * listing call: the directory marker, and the regex when one is set.
   */
  datatype KeyFilter = KeyFilter(marker: string, regex: Option<string>, matcher: Matcher)

  /** The filter of a storage: its directory marker, and its regex when truthy. */
  function FilterOf(c: StorageConfig, matcher: Matcher): (f: KeyFilter)
    ensures f.marker == DirectoryMarker(c)
    ensures f.regex.Some? <==> Truthy(c.regexFilter)
    ensures f.regex.Some? ==> f.regex == c.regexFilter
    ensures f.matcher == matcher
  {
    KeyFilter(DirectoryMarker(c), if Truthy(c.regexFilter) then c.regexFilter else None, matcher)
  }

  /** Whether a listed name is yielded: it is not the marker and, when a regex is set, the regex matches it at the start. */
  predicate Keeps(f: KeyFilter, name: string)
  {
    && name != f.marker
    && (f.regex.Some? ==> f.matcher(f.regex.value, name))
  }

  /** The names of one page that are yielded, in listing order. */
  function Survivors(f: KeyFilter, names: seq<string>): (kept: seq<string>)
    ensures |kept| <= |names|
  {
    if names == [] then []
    else
      var last := names[|names| - 1];
      Survivors(f, names[..|names| - 1]) + (if Keeps(f, last) then [last] else [])
  }

  /** The names one listing response yields: a page's survivors; nothing for a call that raised. */
  function PageYield(f: KeyFilter, r: ListResponse): seq<string>
  {
    match r
    case Listed(page) => Survivors(f, page.objects)
    case ListFailed(_) => []
  }

  /** The names yielded for the first n listing responses, page after page. */
  function YieldedUpTo(f: KeyFilter, responses: seq<ListResponse>, n: nat): seq<string>
    requires n <= |responses|
  {
    if n == 0 then [] else YieldedUpTo(f, responses, n - 1) + PageYield(f, responses[n - 1])
  }

  /** The names yielded for a run of listing responses: each page's survivors, page after page. */
  function YieldedKeys(f: KeyFilter, responses: seq<ListResponse>): seq<string>
  {
    YieldedUpTo(f, responses, |responses|)
  }

  /**
   * The responses the listing service gives to successive calls form one
   * cursor chain: every response but the last is a page with a cursor, and
   * the last is a page without one or a failure.
   */
  predicate ChainEnds(responses: seq<ListResponse>)
  {
    && |responses| > 0
    && (forall i :: 0 <= i < |responses| - 1 ==>
          responses[i].Listed? && responses[i].page.nextStartWith.Some?)
    && (responses[|responses| - 1].Listed? ==> responses[|responses| - 1].page.nextStartWith.None?)
  }

  /** The exception, if any, that ends the enumeration: a failure of the last listing call. */
  function ListingError(responses: seq<ListResponse>): Option<Error>
    requires |responses| > 0
  {
    match responses[|responses| - 1]
    case ListFailed(e) => Some(e)
    case Listed(_) => None
  }

  /**
   * The inner loop of iterkeys over one page: skips the directory marker and
   * the names the regex does not match at the start, and emits the others in
   * listing order.
   */
  method PageKeys(filter: KeyFilter, objects: seq<string>) returns (emitted: seq<string>)
    ensures emitted == Survivors(filter, objects)
  {
    emitted := [];
    for j := 0 to |objects|
      invariant emitted == Survivors(filter, objects[..j])
    {
      var name := objects[j];
      assert objects[..j + 1][..j] == objects[..j];
      if name == filter.marker {
        continue;
      }
      if filter.regex.Some? && !filter.matcher(filter.regex.value, name) {
        continue;
      }
      emitted := emitted + [name];
    }
    assert objects[..|objects|] == objects;
  }

  /** The cursor a response hands to the next call: a page's next-start marker, none after a failure. */
  function Cursor(r: ListResponse): Option<string>
  {
    if r.Listed? then r.page.nextStartWith else None
  }

  /**
   * The listing calls made for the first n responses: the first without a
   * cursor, each later one with the cursor of the response before it.
   */
  function CallsFor(namespace: string, bucket: Option<string>, responses: seq<ListResponse>, n: nat)
    : (calls: seq<ListCall>)
    requires n <= |responses|
    ensures |calls| == n
  {
    if n == 0 then []
    else
      CallsFor(namespace, bucket, responses, n - 1)
        + [ListCall(namespace, bucket, if n == 1 then None else Cursor(responses[n - 2]))]
  }

  /**
   * Every call goes to the namespace and the bucket; the first has no
   * cursor, and every later one passes the previous response's cursor.
   */
  lemma {:induction false} CallsForArguments(namespace: string, bucket: Option<string>,
                                             responses: seq<ListResponse>, n: nat)
    requires n <= |responses|
    ensures var calls := CallsFor(namespace, bucket, responses, n);
            && (forall i :: 0 <= i < n ==> calls[i].namespace == namespace && calls[i].bucket == bucket)
            && (n > 0 ==> calls[0].start == None)
            && (forall i :: 0 < i < n ==> calls[i].start == Cursor(responses[i - 1]))
  {
    if n > 0 {
      CallsForArguments(namespace, bucket, responses, n - 1);
      var prev := CallsFor(namespace, bucket, responses, n - 1);
      var calls := CallsFor(namespace, bucket, responses, n);
      assert forall i :: 0 <= i < n - 1 ==> calls[i] == prev[i];
    }
  }

  /** A call that raises is the last one: it adds no keys and its error ends the enumeration. */
  lemma FailedCallEnds(f: KeyFilter, responses: seq<ListResponse>, k: nat)
    requires ChainEnds(responses)
    requires k < |responses| && responses[k].ListFailed?
    ensures k == |responses| - 1
    ensures YieldedKeys(f, responses) == YieldedUpTo(f, responses, k)
    ensures ListingError(responses) == Some(responses[k].error)
  {
  }

  /** A page without a cursor is the last response: the enumeration ends after it without error. */
  lemma LastPageEnds(f: KeyFilter, responses: seq<ListResponse>, k: nat)
    requires ChainEnds(responses)
    requires k < |responses| && responses[k].Listed? && responses[k].page.nextStartWith.None?
    ensures k + 1 == |responses|
    ensures ListingError(responses) == None
  {
  }

  /**
   * The listing loop of iterkeys, once the client and the namespace are in
   * hand: lists the first page, and while there is a page, yields its
   * survivors and lists the next page from its cursor, until a page has no
   * cursor or a listing call raises.
   */
  method ListPages(filter: KeyFilter, namespace: string, bucket: Option<string>, responses: seq<ListResponse>)
    returns (keys: seq<string>, calls: seq<ListCall>, err: Option<Error>)
    requires ChainEnds(responses)
    ensures calls == CallsFor(namespace, bucket, responses, |responses|)
    ensures keys == YieldedKeys(filter, responses)
    ensures err == ListingError(responses)
  {
    keys, err := [], None;
    calls := [ListCall(namespace, bucket, None)];
    var i := 1;
    var response: Option<Page> := None;
    if responses[0].ListFailed? {
      err := Some(responses[0].error);
      FailedCallEnds(filter, responses, 0);
    } else {
      response := Some(responses[0].page);
    }
    while response.Some?
      invariant 1 <= i <= |responses|
      invariant calls == CallsFor(namespace, bucket, responses, i)
      invariant response.Some? ==>
        && responses[i - 1] == Listed(response.value)
        && keys == YieldedUpTo(filter, responses, i - 1)
        && err == None
      invariant response.None? ==>
        && i == |responses|
        && keys == YieldedKeys(filter, responses)
        && err == ListingError(responses)
      decreases |responses| - i, response.Some?
    {
      var page := response.value;
      var pageKeys := PageKeys(filter, page.objects);
      keys := keys + pageKeys;
      if page.nextStartWith.Some? {
        calls := calls + [ListCall(namespace, bucket, page.nextStartWith)];
        if responses[i].ListFailed? {
          err := Some(responses[i].error);
          FailedCallEnds(filter, responses, i);
          response := None;
        } else {
          response := Some(responses[i].page);
        }
        i := i + 1;
      } else {
        LastPageEnds(filter, responses, i - 1);
        response := None;
      }
    }
  }

  /**
   * iterkeys, run to completion. `session` is the outcome of obtaining the
   * client and the namespace; `responses` are what the listing service
   * answers to the successive calls; `calls` records the arguments of every
   * listing call made. Exactly one call is made per response; the first has
   * no start cursor and every later one passes the previous page's cursor
   * verbatim. The names yielded are each page's survivors in listing order.
   */
  method IterKeys(c: StorageConfig, matcher: Matcher, session: Result<string, Error>,
                  responses: seq<ListResponse>)
    returns (keys: seq<string>, calls: seq<ListCall>, err: Option<Error>)
    requires ChainEnds(responses)
    ensures session.Failure? ==> keys == [] && calls == [] && err == Some(session.error)
    ensures session.Success? ==>
      && |calls| == |responses|
      && (forall i :: 0 <= i < |calls| ==>
            calls[i].namespace == session.value && calls[i].bucket == c.bucketName)
      && calls[0].start == None
      && (forall i :: 0 < i < |calls| ==> calls[i].start == responses[i - 1].page.nextStartWith)
      && keys == YieldedKeys(FilterOf(c, matcher), responses)
      && err == ListingError(responses)
  {
    if session.Failure? {
      return [], [], Some(session.error);
    }
    keys, calls, err := ListPages(FilterOf(c, matcher), session.value, c.bucketName, responses);
    CallsForArguments(session.value, c.bucketName, responses, |responses|);
  }

  /** A name survives a page exactly when it is listed on it and kept. */
  lemma {:induction false} SurvivorsMembership(f: KeyFilter, names: seq<string>, x: string)
    ensures x in Survivors(f, names) <==> x in names && Keeps(f, x)
  {
    if names != [] {
      var init := names[..|names| - 1];
      SurvivorsMembership(f, init, x);
      assert names == init + [names[|names| - 1]];
    }
  }

  /** Filtering distributes over concatenation: listing order is kept. */
  lemma {:induction false} SurvivorsAppend(f: KeyFilter, a: seq<string>, b: seq<string>)
    ensures Survivors(f, a + b) == Survivors(f, a) + Survivors(f, b)
  {
    if b == [] {
      assert a + b == a;
    } else {
      var init := b[..|b| - 1];
      SurvivorsAppend(f, a, init);
      assert (a + b)[..|a + b| - 1] == a + init;
    }
  }

  /** Nothing is re-sorted or de-duplicated: when every name is kept, the page comes out as listed. */
  lemma {:induction false} SurvivorsAllKept(f: KeyFilter, names: seq<string>)
    requires forall i :: 0 <= i < |names| ==> Keeps(f, names[i])
    ensures Survivors(f, names) == names
  {
    if names != [] {
      var init := names[..|names| - 1];
      SurvivorsAllKept(f, init);
      assert init + [names[|names| - 1]] == names;
    }
  }

  /**
   * Every name yielded by the first n responses differs from the directory
   * marker and, when a regex is set, matches it at the start.
   */
  lemma {:induction false} YieldedKeysKept(f: KeyFilter, responses: seq<ListResponse>, n: nat, k: string)
    requires n <= |responses| && k in YieldedUpTo(f, responses, n)
    ensures k != f.marker
    ensures f.regex.Some? ==> f.matcher(f.regex.value, k)
  {
    if k in YieldedUpTo(f, responses, n - 1) {
      YieldedKeysKept(f, responses, n - 1, k);
    } else {
      SurvivorsMembership(f, responses[n - 1].page.objects, k);
    }
  }

  /** Appending responses does not change what the earlier ones yield. */
  lemma {:induction false} YieldedUpToExtend(f: KeyFilter, r1: seq<ListResponse>, r2: seq<ListResponse>, n: nat)
    requires n <= |r1|
    ensures YieldedUpTo(f, r1 + r2, n) == YieldedUpTo(f, r1, n)
  {
    if n > 0 {
      YieldedUpToExtend(f, r1, r2, n - 1);
      assert (r1 + r2)[n - 1] == r1[n - 1];
    }
  }

  /** One more page adds exactly that page's survivors. */
  lemma YieldedKeysSnoc(f: KeyFilter, rs: seq<ListResponse>, r: ListResponse)
    ensures YieldedKeys(f, rs + [r]) == YieldedKeys(f, rs) + PageYield(f, r)
  {
    YieldedUpToExtend(f, rs, [r], |rs|);
    assert (rs + [r])[|rs|] == r;
  }

  /** The keys of consecutive runs of pages follow each other. */
  lemma {:induction false} YieldedKeysAppend(f: KeyFilter, r1: seq<ListResponse>, r2: seq<ListResponse>)
    ensures YieldedKeys(f, r1 + r2) == YieldedKeys(f, r1) + YieldedKeys(f, r2)
    decreases |r2|
  {
    if r2 == [] {
      assert r1 + r2 == r1;
    } else {
      var front, r := r2[..|r2| - 1], r2[|r2| - 1];
      assert front + [r] == r2;
      assert r1 + r2 == (r1 + front) + [r];
      YieldedKeysAppend(f, r1, front);
      YieldedKeysSnoc(f, r1 + front, r);
      YieldedKeysSnoc(f, front, r);
      var before, earlier, page := YieldedKeys(f, r1), YieldedKeys(f, front), PageYield(f, r);
      assert (before + earlier) + page == before + (earlier + page);
    }
  }

  /** With no prefix set, only the name "/" is skipped as a directory marker. */
  lemma UnsetPrefixMarker(c: StorageConfig)
    requires !Truthy(c.bucketPrefix)
    ensures DirectoryMarker(c) == "/"
  {
  }

  /** Stripping the slashes of "a", "a/" and "a//" leaves "a". */
  lemma StripSlashesOfA()
    ensures RStrip("a", '/') == "a"
    ensures RStrip("a/", '/') == "a"
    ensures RStrip("a//", '/') == "a"
  {
  }

  /** Trailing slashes of the prefix collapse: "a", "a/" and "a//" give the marker "a/". */
  lemma MarkerOfSlashedPrefix(c: StorageConfig)
    requires c.bucketPrefix == Some("a") || c.bucketPrefix == Some("a/") || c.bucketPrefix == Some("a//")
    ensures DirectoryMarker(c) == "a/"
  {
    StripSlashesOfA();
    assert ListingPrefix(c) == c.bucketPrefix.value;
  }

  /** The yield of a single three-name page, spelled out name by name. */
  lemma ThreeNamePage(f: KeyFilter, n0: string, n1: string, n2: string)
    ensures Survivors(f, [n0, n1, n2])
      == (if Keeps(f, n0) then [n0] else []) + (if Keeps(f, n1) then [n1] else [])
         + (if Keeps(f, n2) then [n2] else [])
  {
    var names := [n0, n1, n2];
    assert [n0][..0] == [];
    assert Survivors(f, [n0]) == (if Keeps(f, n0) then [n0] else []);
    assert [n0, n1][..1] == [n0];
    assert Survivors(f, [n0, n1]) == Survivors(f, [n0]) + (if Keeps(f, n1) then [n1] else []);
    assert names[..2] == [n0, n1];
  }

  /** A bucket holding "a/", "a/1.json" and "a/2.json" with prefix "a" and no regex yields the two JSON files. */
  lemma ExampleMarkerSkipped(c: StorageConfig, matcher: Matcher)
    requires c.bucketPrefix == Some("a") && c.regexFilter.None?
    ensures YieldedKeys(FilterOf(c, matcher), [Listed(Page(["a/", "a/1.json", "a/2.json"], None))])
            == ["a/1.json", "a/2.json"]
  {
    var f := FilterOf(c, matcher);
    MarkerOfSlashedPrefix(c);
    ThreeNamePage(f, "a/", "a/1.json", "a/2.json");
    var rs := [Listed(Page(["a/", "a/1.json", "a/2.json"], None))];
    assert YieldedKeys(f, rs) == YieldedUpTo(f, rs, 0) + PageYield(f, rs[0]);
  }

  /**
   * The same bucket with the regex "a/1.*", whose matches at the start are
   * the names beginning with "a/1", yields only "a/1.json".
   */
  lemma ExampleRegexFilter(c: StorageConfig)
    requires c.bucketPrefix == Some("a") && c.regexFilter == Some("a/1.*")
    ensures var matcher: Matcher := (pattern, name) => "a/1" <= name;
            YieldedKeys(FilterOf(c, matcher), [Listed(Page(["a/", "a/1.json", "a/2.json"], None))])
            == ["a/1.json"]
  {
    var matcher: Matcher := (pattern, name) => "a/1" <= name;
    var f := FilterOf(c, matcher);
    MarkerOfSlashedPrefix(c);
    ThreeNamePage(f, "a/", "a/1.json", "a/2.json");
    assert "a/2.json"[2] == '2';
    assert !Keeps(f, "a/2.json");
    var rs := [Listed(Page(["a/", "a/1.json", "a/2.json"], None))];
    assert YieldedKeys(f, rs) == YieldedUpTo(f, rs, 0) + PageYield(f, rs[0]);
  }

  // ---------------------------------------------------------------------
  // Task payload
  // ---------------------------------------------------------------------

  /** The URL of an object: the pre-authenticated base URL (rendered with str) followed by the key. */
  function ObjectEndpoint(c: StorageConfig, key: string): (url: string)
    ensures Str(c.preAuthenticatedUrl) <= url
    ensures url[|Str(c.preAuthenticatedUrl)|..] == key
  {
    Str(c.preAuthenticatedUrl) + key
  }

  /**
   * get_data. `session` is the outcome of obtaining the namespace and the
   * client, which happens first in both modes; `load` stands for the HTTP GET
   * of a URL followed by UTF-8 decoding and JSON parsing (the HTTP status is
   * not examined); `undefinedName` is the platform's DATA_UNDEFINED_NAME
   * setting. In BLOB mode the payload is the one entry naming the object's
   * URL; otherwise it is the loaded document, which must be a JSON object.
   */
  function GetData(c: StorageConfig, key: string, session: Result<string, Error>,
                   load: string -> Result<Json, Error>, undefinedName: string)
    : (r: Result<map<string, Json>, Error>)
    ensures session.Failure? ==> r == Failure(session.error)
    ensures session.Success? && c.useBlobUrls ==>
      && r.Success?
      && r.value.Keys == {undefinedName}
      && r.value[undefinedName] == JString(ObjectEndpoint(c, key))
    ensures session.Success? && !c.useBlobUrls ==>
      var loaded := load(ObjectEndpoint(c, key));
      && (r.Success? <==> loaded.Success? && loaded.value.JObject?)
      && (r.Success? ==> loaded.value == JObject(r.value))
      && (loaded.Failure? ==> r == Failure(loaded.error))
      && (loaded.Success? && !loaded.value.JObject? ==> r == Failure(NotADictionary(key)))
  {
    match session
    case Failure(e) => Failure(e)
    case Success(_) =>
      var endpoint := ObjectEndpoint(c, key);
      if c.useBlobUrls then Success(map[undefinedName := JString(endpoint)])
      else
        match load(endpoint)
        case Failure(e) => Failure(e)
        case Success(value) =>
          if value.JObject? then Success(value.fields) else Failure(NotADictionary(key))
  }

  /** In BLOB mode the object is never read: the payload is the same whatever a GET would return. */
  lemma BlobModeReadsNothing(c: StorageConfig, key: string, session: Result<string, Error>,
                             load1: string -> Result<Json, Error>, load2: string -> Result<Json, Error>,
                             undefinedName: string)
    requires c.useBlobUrls
    ensures GetData(c, key, session, load1, undefinedName) == GetData(c, key, session, load2, undefinedName)
  {
  }
}
