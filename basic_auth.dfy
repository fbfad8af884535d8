/** The Keystone request authenticator: it reads the HTTP `Authorization`
    header, accepts only the Basic scheme of section 2 of RFC 7617 (the scheme
    name compared without regard to case, as section 2.1 of RFC 7235 asks),
    decodes the base64 token into `user-id:password` and hands the pair to a
    password authenticator, whose answer it returns unchanged.

    The header is modelled as decoded text (`""` when the header is absent);
    the decoded payload and the credentials are bytes, as Go strings are. The
    password authenticator is a function parameter. */
module BasicAuth {
  import opened AuthTypes
  import opened GoStrings
  import opened Base64

  const Colon: byte := 58

  const EmptyHeaderMsg := "Authorization header isempty, failing request"
  const InvalidHeaderMsg := "invalid header"
  /** The text of Go's `base64.CorruptInputError`, without its byte offset. */
  const IllegalBase64Msg := "illegal base64 data"
  const MalformedMsg := "malformed basic auth header"
  const EmptyURLMsg := "Auth URL is empty"
  const FailedAuthMsg := "Failed to authenticate"

  /** `user.DefaultInfo`, the identity a password authenticator returns. */
  datatype UserInfo = DefaultInfo(name: seq<byte>)

  /** The `(user.Info, bool, error)` triple of an authentication. */
  datatype Response = Response(user: Option<UserInfo>, ok: bool, err: Error)

  /** `authenticator.Password.AuthenticatePassword`. */
  type PasswordAuthenticator = (seq<byte>, seq<byte>) -> Response

  datatype Credential = Credential(username: seq<byte>, password: seq<byte>)

  /** `OpenstackClient.AuthenticatePassword`: the identity service at
      `authURL` either accepts the pair, which gives the user named by the
      user name, `true` and no error, or refuses it, which gives no user,
      `false` and "Failed to authenticate". Whether the service accepts is
      the parameter `accepts`. */
  function OpenstackAuthenticatePassword(authURL: string, accepts: (string, seq<byte>, seq<byte>) -> bool,
                                         username: seq<byte>, password: seq<byte>): (r: Response)
    ensures r.ok <==> accepts(authURL, username, password)
    ensures r.ok ==> r.user == Some(DefaultInfo(username)) && r.err == Nil
    ensures !r.ok ==> r.user == None && r.err == Err(FailedAuthMsg)
  {
    if accepts(authURL, username, password) then Response(Some(DefaultInfo(username)), true, Nil)
    else Response(None, false, Err(FailedAuthMsg))
  }

  /** A `KeystoneAuthenticator`, holding the password authenticator it
      hands credentials to. */
  datatype KeystoneAuthenticator = KeystoneAuthenticator(osClient: PasswordAuthenticator)

  /** `NewKeystoneAuthenticator`: refuses an empty URL; otherwise the
      authenticator's client is the `OpenstackClient` of that URL. */
  function NewKeystoneAuthenticator(authURL: string, accepts: (string, seq<byte>, seq<byte>) -> bool)
    : (r: Result<KeystoneAuthenticator>)
    ensures r.Fail? <==> authURL == ""
    ensures r.Fail? ==> r.err == EmptyURLMsg
    ensures r.Ok? ==> forall u, p :: r.value.osClient(u, p) == OpenstackAuthenticatePassword(authURL, accepts, u, p)
  {
    if authURL == "" then Fail(EmptyURLMsg)
    else Ok(KeystoneAuthenticator((u, p) => OpenstackAuthenticatePassword(authURL, accepts, u, p)))
  }

  /** The header parsing of `AuthenticateRequest`: trim, split on single
      spaces, check the scheme, decode the token, split at the first colon.
      A parse yields a colon-free user name and the rest of the decoded token
      of a header whose first word is `basic` in any case. */
  function ParseBasicAuth(header: string): (r: Result<Credential>)
    ensures r == Fail(EmptyHeaderMsg) <==> forall i :: 0 <= i < |header| ==> IsSpace(header[i])
    ensures r.Ok? ==>
      var parts := Split(TrimSpace(header), ' ');
      && |parts| >= 2
      && ToLower(parts[0]) == "basic"
      && DecodeString(parts[1]) == Some(r.value.username + [Colon] + r.value.password)
      && Colon !in r.value.username
  {
    var auth := TrimSpace(header);
    if auth == [] then Fail(EmptyHeaderMsg)
    else
      var parts := Split(auth, ' ');
      if |parts| < 2 || ToLower(parts[0]) != "basic" then Fail(InvalidHeaderMsg)
      else
        match DecodeString(parts[1])
        case None => Fail(IllegalBase64Msg)
        case Some(payload) =>
          var pair := SplitFirst(payload, Colon);
          if |pair| != 2 then Fail(MalformedMsg)
          else Ok(Credential(pair[0], pair[1]))
  }

  /** `KeystoneAuthenticator.AuthenticateRequest`: a header that does not
      parse gives no user, `false` and the parse error; a header that parses
      gives exactly what the authenticator's client answers. */
  function AuthenticateRequest(a: KeystoneAuthenticator, header: string): (r: Response)
    ensures ParseBasicAuth(header).Fail? ==>
      r == Response(None, false, Err(ParseBasicAuth(header).err))
    ensures ParseBasicAuth(header).Ok? ==>
      r == a.osClient(ParseBasicAuth(header).value.username, ParseBasicAuth(header).value.password)
  {
    match ParseBasicAuth(header)
    case Fail(e) => Response(None, false, Err(e))
    case Ok(c) => a.osClient(c.username, c.password)
  }

  /** The words of a header's scheme that pass the check: five characters,
      each the letter of `basic` in either case, the fourth also U+0130
      LATIN CAPITAL LETTER I WITH DOT ABOVE, which Go lowers to `i`. */
  lemma BasicSchemeWords(w: string)
    ensures ToLower(w) == "basic" <==>
      && |w| == 5
      && (w[0] == 'b' || w[0] == 'B')
      && (w[1] == 'a' || w[1] == 'A')
      && (w[2] == 's' || w[2] == 'S')
      && (w[3] == 'i' || w[3] == 'I' || w[3] == '\U{0130}')
      && (w[4] == 'c' || w[4] == 'C')
  {
    if ToLower(w) == "basic" {
      assert LowerChar(w[0]) == 'b' && LowerChar(w[1]) == 'a' && LowerChar(w[2]) == 's';
      assert LowerChar(w[3]) == 'i' && LowerChar(w[4]) == 'c';
    } else if |w| == 5 {
      var k :| 0 <= k < 5 && ToLower(w)[k] != "basic"[k];
      assert LowerChar(w[k]) != "basic"[k];
    }
  }

  /** Each outcome of the parse, stated as the condition under which it
      happens, for `parts` the words of the trimmed header: the empty-header
      error for an all-white-space header; "invalid header" for fewer than
      two words or a first word that is not `basic` in any case; the base64
      error for a second word that does not decode; "malformed basic auth
      header" for a payload without a colon; and a credential, split at the
      payload's first colon, otherwise. */
  lemma ParseBasicAuthBranches(header: string)
    ensures var auth := TrimSpace(header);
            var parts := Split(auth, ' ');
            var r := ParseBasicAuth(header);
            var scheme := auth != [] && |parts| >= 2 && ToLower(parts[0]) == "basic";
            && (r == Fail(EmptyHeaderMsg) <==> auth == [])
            && (r == Fail(InvalidHeaderMsg) <==> auth != [] && (|parts| < 2 || ToLower(parts[0]) != "basic"))
            && (r == Fail(IllegalBase64Msg) <==> scheme && DecodeString(parts[1]).None?)
            && (r == Fail(MalformedMsg) <==>
                  scheme && DecodeString(parts[1]).Some? && Colon !in DecodeString(parts[1]).value)
            && (r.Ok? <==> scheme && DecodeString(parts[1]).Some? && Colon in DecodeString(parts[1]).value)
  {
    MessagesDistinct();
    var auth := TrimSpace(header);
    if auth != [] {
      var parts := Split(auth, ' ');
      if |parts| >= 2 && ToLower(parts[0]) == "basic" {
        match DecodeString(parts[1])
        case None =>
        case Some(payload) =>
      }
    }
  }

  /** A parse splits the payload at its first colon into the user name and
      the password. */
  lemma ParseBasicAuthCredential(header: string)
    requires ParseBasicAuth(header).Ok?
    ensures var c := ParseBasicAuth(header).value;
            SplitFirst(DecodeString(Split(TrimSpace(header), ' ')[1]).value, Colon) == [c.username, c.password]
  {
    var parts := Split(TrimSpace(header), ' ');
    var pair := SplitFirst(DecodeString(parts[1]).value, Colon);
    assert pair == [pair[0], pair[1]];
  }

  /** The four parse errors are told apart by their texts. */
  lemma MessagesDistinct()
    ensures EmptyHeaderMsg != InvalidHeaderMsg && EmptyHeaderMsg != IllegalBase64Msg
    ensures EmptyHeaderMsg != MalformedMsg && InvalidHeaderMsg != IllegalBase64Msg
    ensures InvalidHeaderMsg != MalformedMsg && IllegalBase64Msg != MalformedMsg
  {
    assert |EmptyHeaderMsg| == 45 && |InvalidHeaderMsg| == 14;
    assert |IllegalBase64Msg| == 19 && |MalformedMsg| == 27;
  }

  /** A scheme word that lower-cases to `basic` holds no white space. */
  lemma SchemeHasNoSpace(scheme: string)
    requires ToLower(scheme) == "basic"
    ensures |scheme| == 5 && ' ' !in scheme && !IsSpace(scheme[0])
  {
    forall i | 0 <= i < |scheme| ensures scheme[i] != ' ' {
      assert LowerChar(scheme[i]) == "basic"[i];
    }
    assert LowerChar(scheme[0]) == 'b';
  }

  /** The header `scheme + " " + token`, for a `basic` scheme in any case and
      a base64 token, splits into exactly the scheme and the token. */
  lemma {:induction false} HeaderParts(scheme: string, bs: seq<byte>)
    requires ToLower(scheme) == "basic"
    requires |bs| > 0
    ensures TrimSpace(scheme + " " + Encode(bs)) == scheme + " " + Encode(bs)
    ensures Split(scheme + " " + Encode(bs), ' ') == [scheme, Encode(bs)]
  {
    var token := Encode(bs);
    var h := scheme + " " + token;
    SchemeHasNoSpace(scheme);
    assert h[0] == scheme[0];
    assert h[|h| - 1] == token[|token| - 1];
    EncodingCharNotSpace(token[|token| - 1]);
    assert TrimSpace(h) == h;
    assert ' ' !in token by {
      forall i | 0 <= i < |token| ensures token[i] != ' ' {
        EncodingCharNotSpace(token[i]);
      }
    }
    assert Join([scheme, token], ' ') == h;
    JoinThenSplit([scheme, token], ' ');
  }

  /** Round trip: for a colon-free user name and any password, even an empty
      one or one holding colons, the header `Basic <base64(user:password)>`
      (the scheme in any case) parses back to exactly that pair. */
  lemma {:induction false} ParseEncoded(scheme: string, username: seq<byte>, password: seq<byte>)
    requires ToLower(scheme) == "basic"
    requires Colon !in username
    ensures ParseBasicAuth(scheme + " " + Encode(username + [Colon] + password))
         == Ok(Credential(username, password))
  {
    var payload := username + [Colon] + password;
    HeaderParts(scheme, payload);
    DecodeEncode(payload);
    SplitFirstAt(username, Colon, password);
  }

  /** The same round trip through `AuthenticateRequest`: the password
      authenticator receives exactly the encoded pair and its answer is the
      result. */
  lemma AuthenticateEncoded(scheme: string, username: seq<byte>, password: seq<byte>,
                            a: KeystoneAuthenticator)
    requires ToLower(scheme) == "basic"
    requires Colon !in username
    ensures AuthenticateRequest(a, scheme + " " + Encode(username + [Colon] + password))
         == a.osClient(username, password)
  {
    ParseEncoded(scheme, username, password);
  }

  /** End to end: an authenticator made for a URL lets the encoded pair in
      exactly when the identity service at that URL accepts it, and then as
      the user of that name. */
  lemma NewAuthenticatorEncoded(authURL: string, accepts: (string, seq<byte>, seq<byte>) -> bool,
                                scheme: string, username: seq<byte>, password: seq<byte>)
    requires authURL != ""
    requires ToLower(scheme) == "basic"
    requires Colon !in username
    ensures var r := AuthenticateRequest(NewKeystoneAuthenticator(authURL, accepts).value,
                                         scheme + " " + Encode(username + [Colon] + password));
            && (r.ok <==> accepts(authURL, username, password))
            && (r.ok ==> r.user == Some(DefaultInfo(username)) && r.err == Nil)
            && (!r.ok ==> r == Response(None, false, Err(FailedAuthMsg)))
  {
    AuthenticateEncoded(scheme, username, password, NewKeystoneAuthenticator(authURL, accepts).value);
  }

  /** A header of one word, `Basic` or `Basic  ` among them, is invalid. */
  lemma {:induction false} OneWordRejected(a: KeystoneAuthenticator, header: string)
    requires TrimSpace(header) != []
    requires ' ' !in TrimSpace(header)
    ensures AuthenticateRequest(a, header) == Response(None, false, Err(InvalidHeaderMsg))
  {
    SplitPieces(TrimSpace(header), ' ');
  }

  /** A well-formed base64 token whose payload has no colon is a malformed
      header. A non-empty payload is needed: the token of an empty payload is
      empty, which leaves a one-word header. */
  lemma {:induction false} NoColonRejected(scheme: string, payload: seq<byte>,
                                           a: KeystoneAuthenticator)
    requires ToLower(scheme) == "basic"
    requires |payload| > 0 && Colon !in payload
    ensures AuthenticateRequest(a, scheme + " " + Encode(payload))
         == Response(None, false, Err(MalformedMsg))
  {
    HeaderParts(scheme, payload);
    DecodeEncode(payload);
  }

  /** Two space-free words joined by one space split back into the two. */
  lemma SplitTwoWords(a: string, b: string)
    requires ' ' !in a && ' ' !in b
    ensures Split(a + " " + b, ' ') == [a, b]
  {
    assert Join([a, b], ' ') == a + " " + b;
    JoinThenSplit([a, b], ' ');
  }

  /* The rejected headers of the authenticator's tests, each stated for
     `ParseBasicAuth`; by the contract of `AuthenticateRequest` each gives no
     user, `false` and the error. Each helper lemma fixes one step of the
     parse of a literal header. */

  lemma LiteralTrimmed(h: string, first: char, last: char)
    requires |h| > 0 && h[0] == first && h[|h| - 1] == last
    requires !IsSpace(first) && !IsSpace(last)
    ensures TrimSpace(h) == h
  {
  }

  lemma BearerHeaderTrimmed()
    ensures TrimSpace("Bearer foo") == "Bearer foo"
  {
    LiteralTrimmed("Bearer foo", 'B', 'o');
  }

  lemma BearerHeaderWords()
    ensures Split("Bearer foo", ' ') == ["Bearer", "foo"]
  {
    var a, b := "Bearer", "foo";
    assert a + " " + b == "Bearer foo";
    assert ' ' !in a;
    assert ' ' !in b;
    SplitTwoWords(a, b);
  }

  lemma BearerNotBasic()
    ensures ToLower("Bearer") != "basic"
  {
    assert |ToLower("Bearer")| == 6;
  }

  /** `Bearer foo`: a scheme other than Basic. */
  lemma SampleOtherScheme()
    ensures ParseBasicAuth("Bearer foo") == Fail(InvalidHeaderMsg)
  {
    BearerHeaderTrimmed();
    BearerHeaderWords();
    BearerNotBasic();
  }

  lemma SchemeTrimmed()
    ensures TrimSpace("Basic") == "Basic"
  {
    LiteralTrimmed("Basic", 'B', 'c');
  }

  lemma SchemeOneWord()
    ensures Split("Basic", ' ') == ["Basic"]
  {
    var w := "Basic";
    assert ' ' !in w;
    SplitPieces(w, ' ');
  }

  /** `Basic`: a scheme with no token. */
  lemma SampleMissingToken()
    ensures ParseBasicAuth("Basic") == Fail(InvalidHeaderMsg)
  {
    SchemeTrimmed();
    SchemeOneWord();
  }

  lemma PaddedSchemeTrimmed()
    ensures TrimSpace("Basic  ") == "Basic"
  {
    var w, h := "Basic", "Basic  ";
    assert h[0] == 'B';
    assert TrimLeft(h) == h;
    var h6 := h[..6];
    assert h[6] == ' ' && h6[5] == ' ';
    assert h6[..5] == w;
    assert w[4] == 'c';
    assert TrimRight(w) == w;
    assert TrimRight(h6) == w;
  }

  /** `Basic  `: trailing spaces are trimmed away before the split, so the
      header has no token either. */
  lemma SamplePaddedMissingToken()
    ensures ParseBasicAuth("Basic  ") == Fail(InvalidHeaderMsg)
  {
    PaddedSchemeTrimmed();
    SchemeOneWord();
  }

  lemma BadTokenHeaderTrimmed()
    ensures TrimSpace("Basic !@#$") == "Basic !@#$"
  {
    LiteralTrimmed("Basic !@#$", 'B', '$');
  }

  lemma BadTokenHeaderWords()
    ensures Split("Basic !@#$", ' ') == ["Basic", "!@#$"]
  {
    var a, b := "Basic", "!@#$";
    assert a + " " + b == "Basic !@#$";
    assert ' ' !in a;
    assert ' ' !in b;
    SplitTwoWords(a, b);
  }

  lemma SchemeIsBasic()
    ensures ToLower("Basic") == "basic"
  {
  }

  lemma BadTokenRejected()
    ensures DecodeString("!@#$") == None
  {
    var token := "!@#$";
    assert token[0] == '!';
    ForeignCharRejected(token, '!');
  }

  /** `Basic !@#$`: a token outside the base64 alphabet. */
  lemma SampleBadToken()
    ensures ParseBasicAuth("Basic !@#$") == Fail(IllegalBase64Msg)
  {
    BadTokenHeaderTrimmed();
    BadTokenHeaderWords();
    SchemeIsBasic();
    BadTokenRejected();
  }
}
