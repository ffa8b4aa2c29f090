/**
 * The part of the Oracle Cloud storage mixin shared by the import and the
 * export storage: the SDK configuration map, the re-armoring of the
 * flattened private key, the connectivity probe's decision, and the set of
 * attributes a storage object declares.
 */
module StorageMixin {
  import opened Wrappers
  import opened OciTypes
  import opened Text

  // ---------------------------------------------------------------------
  // SDK configuration
  // ---------------------------------------------------------------------

  /** The keys of the configuration map handed to the cloud SDK. */
  const ConfigKeys: set<string> := {"user", "fingerprint", "tenancy", "region", "pass_phrase", "key_file"}

  /**
   * The SDK configuration: user, fingerprint, tenancy, region and pass phrase
   * rendered with `str`, and a key-file entry that is always the text "None".
   */
  function GetConfig(c: StorageConfig): (config: map<string, string>)
    ensures config.Keys == ConfigKeys
    ensures config["key_file"] == "None"
  {
    map[
      "user" := Str(c.ocid),
      "fingerprint" := Str(c.fingerPrint),
      "tenancy" := Str(c.tenancy),
      "region" := Str(c.region),
      "pass_phrase" := Str(c.passPhrase),
      "key_file" := "None"
    ]
  }

  /**
   * Two storages get the same SDK configuration exactly when their five
   * credential fields render to the same text; bucket, prefix, key material,
   * regex, URL and mode play no part.
   */
  lemma GetConfigDeterminedByCredentials(c1: StorageConfig, c2: StorageConfig)
    ensures GetConfig(c1) == GetConfig(c2) <==>
      && Str(c1.ocid) == Str(c2.ocid)
      && Str(c1.fingerPrint) == Str(c2.fingerPrint)
      && Str(c1.tenancy) == Str(c2.tenancy)
      && Str(c1.region) == Str(c2.region)
      && Str(c1.passPhrase) == Str(c2.passPhrase)
  {
  }

  /** An unset credential field is indistinguishable from one holding the text "None". */
  lemma GetConfigUnsetReadsAsNone(c: StorageConfig)
    requires c.ocid.None?
    ensures GetConfig(c)["user"] == "None"
    ensures GetConfig(c) == GetConfig(c.(ocid := Some("None")))
  {
  }

  // ---------------------------------------------------------------------
  // Private-key re-armoring
  // ---------------------------------------------------------------------

  /** The slice `tokens[:4]`: the first four tokens, or all of them if fewer. */
  function Header(tokens: seq<string>): seq<string>
  {
    if |tokens| <= 4 then tokens else tokens[..4]
  }

  /** The slice `tokens[-4:]`: the last four tokens, or all of them if fewer. */
  function Footer(tokens: seq<string>): seq<string>
  {
    if |tokens| <= 4 then tokens else tokens[|tokens| - 4..]
  }

  /** The slice `tokens[4:-4]`: the tokens strictly between header and footer. */
  function Body(tokens: seq<string>): seq<string>
  {
    if |tokens| <= 8 then [] else tokens[4..|tokens| - 4]
  }

  /**
   * The intended line layout of a re-armored key: the header tokens joined by
   * single spaces, then each body token on its own line, then the footer
   * tokens joined by single spaces.
   */
  function KeyLines(tokens: seq<string>): seq<string>
  {
    [Join(' ', Header(tokens))] + Body(tokens) + [Join(' ', Footer(tokens))]
  }

  /** The re-armored key: the lines of KeyLines separated by newlines. */
  function ArmoredKey(privateKey: string): string
  {
    Join('\n', KeyLines(Split(privateKey)))
  }

  /**
   * get_private_key: splits the flattened key on whitespace and rebuilds the
   * block by appending, one line at a time, the header, the body tokens and
   * the footer. It never fails, whatever the number of tokens.
   */
  method GetPrivateKey(privateKey: string) returns (pkey: string)
    ensures pkey == ArmoredKey(privateKey)
  {
    var tokens := Split(privateKey);
    var endPart := Join(' ', Footer(tokens));
    var firstPart := Join(' ', Header(tokens));
    pkey := "";
    pkey := pkey + firstPart;
    var body := Body(tokens);
    for i := 0 to |body|
      invariant pkey == Join('\n', [firstPart] + body[..i])
    {
      assert ([firstPart] + body[..i + 1])[..i + 1] == [firstPart] + body[..i];
      pkey := pkey + "\n";
      pkey := pkey + body[i];
    }
    assert body[..|body|] == body;
    assert ([firstPart] + body + [endPart])[..|body| + 1] == [firstPart] + body;
    pkey := pkey + "\n";
    pkey := pkey + endPart;
  }

  /** A token carries no newline, since a newline is whitespace. */
  lemma TokenHasNoNewline(t: string)
    requires IsToken(t)
    ensures '\n' !in t
  {
  }

  /** No line of the layout carries a newline of its own. */
  lemma KeyLinesNewlineFree(tokens: seq<string>)
    requires forall t :: t in tokens ==> IsToken(t)
    ensures forall l :: l in KeyLines(tokens) ==> '\n' !in l
  {
    forall t | t in tokens
      ensures '\n' !in t
    {
      TokenHasNoNewline(t);
    }
    JoinAvoids(' ', Header(tokens), '\n');
    JoinAvoids(' ', Footer(tokens), '\n');
  }

  /**
   * The lines of the re-armored key are exactly the layout: the first line is
   * the first four tokens joined by single spaces, the last line the last four
   * tokens joined by single spaces, and every body token has its own line in
   * between, in the original order.
   */
  lemma ArmoredKeyLines(privateKey: string)
    ensures var tokens := Split(privateKey);
            var lines := Lines(ArmoredKey(privateKey));
            && lines == KeyLines(tokens)
            && lines[0] == Join(' ', Header(tokens))
            && lines[|lines| - 1] == Join(' ', Footer(tokens))
            && lines[1..|lines| - 1] == Body(tokens)
  {
    var tokens := Split(privateKey);
    SplitTokens(privateKey);
    KeyLinesNewlineFree(tokens);
    LinesJoin(KeyLines(tokens));
    var lines := KeyLines(tokens);
    assert lines[1..|lines| - 1] == Body(tokens);
  }

  /** The re-armored key of n tokens has exactly max(0, n - 8) + 1 newlines. */
  lemma ArmoredKeyNewlines(privateKey: string)
    ensures var n := |Split(privateKey)|;
            multiset(ArmoredKey(privateKey))['\n'] == (if n > 8 then n - 8 else 0) + 1
  {
    ArmoredKeyLines(privateKey);
    LinesCount(ArmoredKey(privateKey));
  }

  /**
   * Splitting the re-armored key on whitespace gives back the header, body
   * and footer tokens in order.
   */
  lemma ArmoredKeyTokens(privateKey: string)
    ensures var tokens := Split(privateKey);
            Split(ArmoredKey(privateKey)) == Header(tokens) + Body(tokens) + Footer(tokens)
  {
    var tokens := Split(privateKey);
    var h, b, f := Header(tokens), Body(tokens), Footer(tokens);
    SplitTokens(privateKey);
    var head := Join(' ', h);
    var foot := Join(' ', f);
    assert IsSpace('\n') && IsSpace(' ');
    SplitJoin(' ', h);
    SplitJoin(' ', f);
    SplitJoinAfterHead('\n', head, b);
    var parts := [head] + b + [foot];
    assert parts[..|parts| - 1] == [head] + b;
    assert Join('\n', parts) == Join('\n', [head] + b) + (['\n'] + foot);
    SplitAtSpace(Join('\n', [head] + b), '\n', foot);
  }

  /**
   * Re-armoring keeps the key's token sequence exactly when the key has at
   * least eight tokens (or none): with one to seven tokens the header and the
   * footer overlap and tokens are repeated.
   */
  lemma {:induction false} ArmoringPreservesTokens(privateKey: string)
    ensures var n := |Split(privateKey)|;
            Split(ArmoredKey(privateKey)) == Split(privateKey) <==> n == 0 || n >= 8
  {
    var tokens := Split(privateKey);
    var n := |tokens|;
    ArmoredKeyTokens(privateKey);
    if n >= 8 {
      if n == 8 {
        assert tokens[..4] + tokens[4..] == tokens;
      } else {
        assert tokens[..4] + tokens[4..n - 4] + tokens[n - 4..] == tokens;
      }
    } else if n > 0 {
      var armored := Header(tokens) + Body(tokens) + Footer(tokens);
      assert |armored| != n;
    }
  }

  // ---------------------------------------------------------------------
  // Connection validation
  // ---------------------------------------------------------------------

  /** What the signed probe request did: answered with a status, or raised. */
  datatype ProbeResult = Responded(statusCode: int) | ProbeRaised(error: Error)

  /** The console URL probed for the storage's bucket in the given namespace. */
  function ConsoleEndpoint(c: StorageConfig, namespace: string): (url: string)
    ensures "https://console." + Str(c.region) + ".oraclecloud.com/" <= url
    ensures |url| >= |Str(c.bucketName)| && url[|url| - |Str(c.bucketName)|..] == Str(c.bucketName)
  {
    "https://console." + Str(c.region) + ".oraclecloud.com/object-storage/buckets/"
      + namespace + "/" + Str(c.bucketName)
  }

  /**
   * validate_connection. The namespace lookup happens while the endpoint is
   * built, before the guarded block, so its failure propagates unchanged.
   * Inside the block a probe that raises, and a status other than 200 (whose
   * own RuntimeError is caught as well), both end in the one "invalid
   * configuration" error naming the endpoint.
   */
  function ValidateConnection(c: StorageConfig, namespace: Result<string, Error>,
                              probe: string -> ProbeResult): (r: Result<(), Error>)
    ensures r.Success? <==> namespace.Success? && probe(ConsoleEndpoint(c, namespace.value)) == Responded(200)
    ensures namespace.Failure? ==> r == Failure(namespace.error)
    ensures namespace.Success? && r.Failure? ==> r.error == InvalidConfig(ConsoleEndpoint(c, namespace.value))
  {
    match namespace
    case Failure(e) => Failure(e)
    case Success(ns) =>
      var endpoint := ConsoleEndpoint(c, ns);
      var attempt: Result<(), Error> :=
        match probe(endpoint)
        case ProbeRaised(e) => Failure(e)
        case Responded(code) =>
          if code != 200 then Failure(Raised("RuntimeError: unexpected status")) else Success(());
      if attempt.Failure? then Failure(InvalidConfig(endpoint)) else Success(())
  }

  /**
   * Every failed probe is reported the same way: the outcome does not depend
   * on which non-200 status came back or what the probe raised.
   */
  lemma ProbeFailuresIndistinguishable(c: StorageConfig, namespace: Result<string, Error>,
                                       p1: string -> ProbeResult, p2: string -> ProbeResult)
    requires namespace.Success?
    requires p1(ConsoleEndpoint(c, namespace.value)) != Responded(200)
    requires p2(ConsoleEndpoint(c, namespace.value)) != Responded(200)
    ensures ValidateConnection(c, namespace, p1) == ValidateConnection(c, namespace, p2)
  {
  }

  // ---------------------------------------------------------------------
  // Declared attributes
  // ---------------------------------------------------------------------

  /**
   * The attributes an OCI storage object declares: the mixin's fields and
   * its methods. Attributes inherited from the base storage models are not
   * part of this model.
   */
  const DeclaredAttributes: set<string> := {
    "tenancy", "bucket_name", "bucket_prefix", "region", "ocid", "finger_print",
    "private_key", "pass_phrase", "regex_filter", "pre_authenticated_url", "use_blob_urls",
    "get_config", "get_private_key", "get_signer", "get_object_storage", "get_namespace",
    "validate_connection"
  }

  /** The text fields of a storage, by attribute name, with their values. */
  function TextFields(c: StorageConfig): (fields: map<string, Option<string>>)
    ensures fields.Keys <= DeclaredAttributes
    ensures "bucket_prefix" in fields && fields["bucket_prefix"] == c.bucketPrefix
    ensures "bucket_name" in fields && fields["bucket_name"] == c.bucketName
  {
    map[
      "tenancy" := c.tenancy,
      "bucket_name" := c.bucketName,
      "bucket_prefix" := c.bucketPrefix,
      "region" := c.region,
      "ocid" := c.ocid,
      "finger_print" := c.fingerPrint,
      "private_key" := c.privateKey,
      "pass_phrase" := c.passPhrase,
      "regex_filter" := c.regexFilter,
      "pre_authenticated_url" := c.preAuthenticatedUrl
    ]
  }

  /**
   * Reading an attribute expected to hold text: the field's value, or the
   * AttributeError raised for a name the storage does not declare. Names
   * read this way are text fields or undeclared.
   */
  function ReadTextAttribute(c: StorageConfig, name: string): (r: Result<Option<string>, Error>)
    requires name in TextFields(c) || name !in DeclaredAttributes
    ensures r.Failure? <==> name !in DeclaredAttributes
    ensures r.Failure? ==> r.error == MissingAttribute(name)
    ensures r.Success? ==> r.value == TextFields(c)[name]
  {
    if name in TextFields(c) then Success(TextFields(c)[name]) else Failure(MissingAttribute(name))
  }

  /**
   * Reaching the object-storage client through attribute `name`: possible
   * when the storage declares it (the client itself was already built for
   * the namespace lookup), an AttributeError otherwise.
   */
  function ReadClient(name: string): (r: Result<(), Error>)
    ensures r.Failure? <==> name !in DeclaredAttributes
    ensures r.Failure? ==> r.error == MissingAttribute(name)
  {
    if name in DeclaredAttributes then Success(()) else Failure(MissingAttribute(name))
  }
}
