/** The avatar URL builder of the Gleez Gravatar component: a record of
    five validated display settings, setters that either apply an update
    or reject it and change nothing, and buildURL, which turns an email
    address into the URL of its avatar image. */
module Gravatar {
  import opened PhpStrings
  import Http = HttpQuery

  /** The two service endpoints. */
  const HTTP_URL: string := "http://www.gravatar.com/avatar/"
  const HTTPS_URL: string := "https://secure.gravatar.com/avatar/"

  /** The accepted avatar sizes, in pixels. */
  const MIN_AVATAR_SIZE: int := 0
  const MAX_AVATAR_SIZE: int := 2048

  /** The defaults the service recognises by name, in declaration order. */
  const ValidDefaults: seq<string> := ["404", "mm", "identicon", "monsterid", "wavatar", "retro", "blank"]

  /** The accepted ratings, in declaration order (the error message lists
      them in this order). */
  const ValidRatings: seq<string> := ["g", "pg", "r", "x"]

  predicate IsLowerHex(c: char) {
    '0' <= c <= '9' || 'a' <= c <= 'f'
  }

  /** What md5() returns: 32 lower-case hexadecimal digits. */
  predicate IsHexDigest(s: string) {
    |s| == 32 && forall k :: 0 <= k < |s| ==> IsLowerHex(s[k])
  }

  /** PHP's md5() on a byte string. The digest itself is not modelled; a
      builder is given the hash routine and relies only on its output
      format. */
  type Md5 = f: seq<Http.Byte> -> string | forall b :: IsHexDigest(f(b))
    witness (b: seq<Http.Byte>) => "00000000000000000000000000000000"

  /** filter_var($s, FILTER_VALIDATE_URL, FILTER_FLAG_HOST_REQUIRED). The
      URL grammar is not modelled; a builder is given the check and relies
      only on this: a string it accepts has a scheme and a host, so it is
      neither the empty string nor "0" (the two strings PHP treats as
      false). */
  type UrlCheck = f: string -> bool | forall s :: f(s) ==> s != "" && s != "0"
    witness (s: string) => false

  /** The default-image setting: PHP's `false`, a recognised name, or a URL. */
  datatype DefaultImage = None | Named(name: string) | Url(url: string)

  /** What setDefaultImage accepts: the boolean `false` or a string. */
  datatype ImageArg = False | Text(text: string)

  /** The InvalidArgumentException a setter throws. */
  datatype ValidationError =
    | InvalidSize
    | InvalidRating(rating: string)   // the normalised rating that was refused
    | InvalidDefaultImage

  /** How a setter call ends: it returns, or it throws. */
  datatype Outcome = Pass | Fail(error: ValidationError)

  /** The text of the exception each error raises. */
  function Message(e: ValidationError): string {
    match e
    case InvalidSize =>
      "Avatar size must be an integer within " + Http.NatToDecimal(MIN_AVATAR_SIZE) + " pixels and "
      + Http.NatToDecimal(MAX_AVATAR_SIZE) + " pixels"
    case InvalidRating(r) =>
      "Invalid rating \"" + r + "\" specified. Available for use only: " + Join(ValidRatings, ", ") + "."
    case InvalidDefaultImage =>
      "The default image specified is not a recognized gravatar \"default\" and is not a valid URL"
  }

  lemma BoundsInDecimal()
    ensures Http.NatToDecimal(MIN_AVATAR_SIZE) == "0" && Http.NatToDecimal(MAX_AVATAR_SIZE) == "2048"
  {
  }

  /** The size message names both bounds in decimal. */
  lemma SizeMessageText()
    ensures Message(InvalidSize) == "Avatar size must be an integer within " + "0" + " pixels and " + "2048" + " pixels"
  {
    BoundsInDecimal();
  }

  lemma RatingsListed()
    ensures Join(ValidRatings, ", ") == "g, pg, r, x"
  {
  }

  /** The rating message quotes the refused rating and lists the accepted
      ones, comma-separated, in declaration order. */
  lemma RatingMessageText(r: string)
    ensures Message(InvalidRating(r)) == "Invalid rating \"" + r + "\" specified. Available for use only: " + "g, pg, r, x" + "."
  {
    RatingsListed();
  }

  /** A snapshot of the five settings. */
  datatype Config = Config(defaultImage: DefaultImage, size: int, rating: string, secureURL: bool, forceDefault: bool)

  /** The value `$this->defaultImage` holds as a string: `false` reads as "". */
  function ImageValue(d: DefaultImage): string {
    match d
    case None => ""
    case Named(n) => n
    case Url(u) => u
  }

  /** PHP's truth test on the default-image setting: `false`, "" and "0"
      are false, every other string is true. */
  predicate IsTruthy(d: DefaultImage) {
    !d.None? && ImageValue(d) != "" && ImageValue(d) != "0"
  }

  /** What setDefaultImage can have stored. */
  predicate ValidDefaultImage(d: DefaultImage, isUrl: UrlCheck) {
    match d
    case None => true
    case Named(n) => n in ValidDefaults
    case Url(u) => Normalize(u) !in ValidDefaults && isUrl(u)
  }

  /** A stored default image is set exactly when PHP reads it as true, so
      buildURL adds `d` exactly for a set default image. */
  lemma StoredImageTruthy(d: DefaultImage, isUrl: UrlCheck)
    requires ValidDefaultImage(d, isUrl)
    ensures IsTruthy(d) <==> !d.None?
  {
  }

  lemma KeysUnreserved()
    ensures Http.UrlEncode("s") == "s" && Http.UrlEncode("r") == "r"
    ensures Http.UrlEncode("d") == "d" && Http.UrlEncode("f") == "f" && Http.UrlEncode("y") == "y"
  {
    Http.UrlEncodeUnreserved("s");
    Http.UrlEncodeUnreserved("r");
    Http.UrlEncodeUnreserved("d");
    Http.UrlEncodeUnreserved("f");
    Http.UrlEncodeUnreserved("y");
  }

  /** Every accepted rating and every default name is made of unreserved
      characters, so urlencode() leaves it as it is. */
  lemma ListedNamesUnreserved(n: string)
    requires n in ValidRatings || n in ValidDefaults
    ensures Http.UrlEncode(n) == n
  {
    Http.UrlEncodeUnreserved(n);
  }

  /** The parameters buildURL hands to http_build_query, built as it
      builds them: `s` and `r`, then `d` when PHP reads the default image
      as true, then `f` when the default is forced. */
  function Params(size: nat, rating: string, image: DefaultImage, force: bool): (q: seq<(string, string)>)
    ensures |q| == 2 + (if IsTruthy(image) then 1 else 0) + (if force then 1 else 0)
    ensures q[0] == ("s", Http.NatToDecimal(size)) && q[1] == ("r", rating)
    ensures IsTruthy(image) ==> q[2] == ("d", ImageValue(image))
    ensures force ==> q[|q| - 1] == ("f", "y")
  {
    var query := [("s", Http.NatToDecimal(size)), ("r", rating)];
    var query := if IsTruthy(image) then query + [("d", ImageValue(image))] else query;
    if force then query + [("f", "y")] else query
  }

  /** The query text of the avatar URL: `s=<size>&r=<rating>`, then
      `&d=<urlencoded image>` when the image reads as true, then `&f=y`
      when the default is forced. */
  function QueryString(size: nat, rating: string, image: DefaultImage, force: bool): string {
    "s=" + Http.NatToDecimal(size) + "&r=" + rating
    + (if IsTruthy(image) then "&d=" + Http.UrlEncode(ImageValue(image)) else "")
    + (if force then "&f=y" else "")
  }

  /** The query text of `s` and `r` when neither value needs escaping. */
  lemma BaseQueryText(dec: string, rating: string)
    requires Http.UrlEncode(dec) == dec && Http.UrlEncode(rating) == rating
    ensures Http.BuildQuery([("s", dec), ("r", rating)]) == "s=" + dec + "&r=" + rating
  {
    KeysUnreserved();
    var ps, pr := "s=" + dec, "r=" + rating;
    assert "s" + "=" == "s=" && "r" + "=" == "r=";
    var e := Http.EncodePairs([("s", dec), ("r", rating)]);
    assert e[0] == ps && e[1] == pr;
    assert e == [ps, pr];
    assert Join([ps, pr], "&") == ps + "&" + pr;
  }

  /** Appending a parameter whose one-letter key needs no escaping. */
  lemma AppendParam(ps: seq<(string, string)>, key: string, value: string, text: string)
    requires |ps| >= 1
    requires Http.UrlEncode(key) == key
    requires Http.BuildQuery(ps) == text
    ensures Http.BuildQuery(ps + [(key, value)]) == text + ("&" + key + "=") + Http.UrlEncode(value)
  {
    Http.BuildQueryAppend(ps, key, value);
  }

  /** Appending the default image. */
  lemma AppendDefault(ps: seq<(string, string)>, text: string, value: string)
    requires |ps| >= 1 && Http.BuildQuery(ps) == text
    ensures Http.BuildQuery(ps + [("d", value)]) == text + ("&d=" + Http.UrlEncode(value))
  {
    KeysUnreserved();
    AppendParam(ps, "d", value, text);
    DefaultKeyText();
    ConcatAssoc(text, "&d=", Http.UrlEncode(value));
  }

  lemma DefaultKeyText()
    ensures "&" + "d" + "=" == "&d="
  {
  }

  lemma ConcatAssoc(a: string, b: string, c: string)
    ensures a + b + c == a + (b + c)
  {
  }

  /** Appending the force-default flag. */
  lemma AppendForce(ps: seq<(string, string)>, text: string)
    requires |ps| >= 1 && Http.BuildQuery(ps) == text
    ensures Http.BuildQuery(ps + [("f", "y")]) == text + "&f=y"
  {
    KeysUnreserved();
    AppendParam(ps, "f", "y", text);
    assert "&" + "f" + "=" + "y" == "&f=y";
  }

  /** Appending the default image when one is set. */
  lemma OptionalDefaultText(sr: seq<(string, string)>, base: string, present: bool, value: string)
    requires |sr| >= 1 && Http.BuildQuery(sr) == base
    ensures Http.BuildQuery(if present then sr + [("d", value)] else sr)
            == base + (if present then "&d=" + Http.UrlEncode(value) else "")
  {
    if present {
      AppendDefault(sr, base, value);
    } else {
      assert base + "" == base;
    }
  }

  /** Appending the force-default flag when it is on. */
  lemma OptionalForceText(ps: seq<(string, string)>, text: string, force: bool)
    requires |ps| >= 1 && Http.BuildQuery(ps) == text
    ensures Http.BuildQuery(if force then ps + [("f", "y")] else ps) == text + (if force then "&f=y" else "")
  {
    if force {
      AppendForce(ps, text);
    } else {
      assert text + "" == text;
    }
  }

  /** http_build_query writes the parameters of buildURL as the query text
      above, when the rating needs no escaping. */
  lemma QueryTextOf(size: nat, rating: string, image: DefaultImage, force: bool)
    requires Http.UrlEncode(rating) == rating
    ensures Http.BuildQuery(Params(size, rating, image, force)) == QueryString(size, rating, image, force)
  {
    var dec := Http.NatToDecimal(size);
    Http.DecimalIsUnreserved(size);
    Http.UrlEncodeUnreserved(dec);
    var sr := [("s", dec), ("r", rating)];
    var base := "s=" + dec + "&r=" + rating;
    BaseQueryText(dec, rating);
    var truthy := IsTruthy(image);
    var withD := if truthy then sr + [("d", ImageValue(image))] else sr;
    OptionalDefaultText(sr, base, truthy, ImageValue(image));
    OptionalForceText(withD, base + (if truthy then "&d=" + Http.UrlEncode(ImageValue(image)) else ""), force);
  }

  lemma PrefixOfConcat(a: string, b: string, c: string, d: string)
    ensures a <= a + b + c + d
  {
    assert (a + b + c + d)[..|a|] == a;
  }

  /** A URL that starts with one endpoint does not start with the other. */
  lemma EndpointPrefixes(secure: bool, url: string)
    requires (if secure then HTTPS_URL else HTTP_URL) <= url
    ensures HTTPS_URL <= url <==> secure
    ensures HTTP_URL <= url <==> !secure
  {
    assert url[4] == if secure then 's' else ':';
  }

  class Gravatar {
    /** The hash and the URL check the builder calls. */
    const md5: Md5
    const isUrl: UrlCheck

    var defaultImage: DefaultImage
    var size: int
    var rating: string
    var secureURL: bool
    var forceDefault: bool

    /** The invariant every setter keeps. */
    predicate Valid()
      reads this
    {
      && MIN_AVATAR_SIZE <= size <= MAX_AVATAR_SIZE
      && rating in ValidRatings
      && ValidDefaultImage(defaultImage, isUrl)
    }

    function Current(): Config
      reads this
    {
      Config(defaultImage, size, rating, secureURL, forceDefault)
    }

    /** A builder with the default settings: size 80, rating g, no default
        image, plain HTTP, default not forced. */
    constructor (md5: Md5, isUrl: UrlCheck)
      ensures Valid()
      ensures this.md5 == md5 && this.isUrl == isUrl
      ensures Current() == Config(None, 80, "g", false, false)
    {
      this.md5 := md5;
      this.isUrl := isUrl;
      defaultImage := None;
      size := 80;
      rating := "g";
      secureURL := false;
      forceDefault := false;
    }

    /** Sets the default image: `false` clears it, a recognised name (in
        any case, with surrounding whitespace) is stored normalised, any
        other string must pass the URL check and is stored as given. */
    method SetDefaultImage(image: ImageArg) returns (o: Outcome)
      requires Valid()
      modifies this
      ensures Valid()
      ensures image.False? ==> o == Pass && Current() == old(Current()).(defaultImage := None)
      ensures image.Text? && Normalize(image.text) in ValidDefaults ==>
        o == Pass && Current() == old(Current()).(defaultImage := Named(Normalize(image.text)))
      ensures image.Text? && Normalize(image.text) !in ValidDefaults && isUrl(image.text) ==>
        o == Pass && Current() == old(Current()).(defaultImage := Url(image.text))
      ensures image.Text? && Normalize(image.text) !in ValidDefaults && !isUrl(image.text) ==>
        o == Fail(InvalidDefaultImage) && Current() == old(Current())
    {
      if image.False? {
        defaultImage := None;
        return Pass;
      }
      var default := Normalize(image.text);
      if default !in ValidDefaults {
        if !isUrl(image.text) {
          return Fail(InvalidDefaultImage);
        } else {
          defaultImage := Url(image.text);
        }
      } else {
        defaultImage := Named(default);
      }
      return Pass;
    }

    /** The current default image; PHP reads it as true exactly when one is
        set. */
    function GetDefaultImage(): (d: DefaultImage)
      reads this
      requires Valid()
      ensures ValidDefaultImage(d, isUrl)
      ensures IsTruthy(d) <==> !d.None?
    {
      defaultImage
    }

    /** Sets the avatar size; out-of-range sizes are refused. */
    method SetSize(n: int) returns (o: Outcome)
      requires Valid()
      modifies this
      ensures Valid()
      ensures o == Pass <==> MIN_AVATAR_SIZE <= n <= MAX_AVATAR_SIZE
      ensures o.Fail? ==> o.error == InvalidSize
      ensures Current() == if o.Pass? then old(Current()).(size := n) else old(Current())
    {
      if !(MIN_AVATAR_SIZE <= n <= MAX_AVATAR_SIZE) {
        return Fail(InvalidSize);
      }
      size := n;
      return Pass;
    }

    function GetSize(): (n: int)
      reads this
      requires Valid()
      ensures MIN_AVATAR_SIZE <= n <= MAX_AVATAR_SIZE
    {
      size
    }

    /** Sets the maximum rating: the argument is trimmed and lower-cased and
        must then be one of g, pg, r and x. */
    method SetRating(r: string) returns (o: Outcome)
      requires Valid()
      modifies this
      ensures Valid()
      ensures o == Pass <==> Normalize(r) in ValidRatings
      ensures o.Fail? ==> o.error == InvalidRating(Normalize(r))
      ensures Current() == if o.Pass? then old(Current()).(rating := Normalize(r)) else old(Current())
    {
      var rating := Normalize(r);
      if rating !in ValidRatings {
        return Fail(InvalidRating(rating));
      }
      this.rating := rating;
      return Pass;
    }

    function GetRating(): (r: string)
      reads this
      requires Valid()
      ensures r in ValidRatings
    {
      rating
    }

    function UseSecureURL(): bool
      reads this
    {
      secureURL
    }

    method EnableSecureURL()
      requires Valid()
      modifies this
      ensures Valid()
      ensures Current() == old(Current()).(secureURL := true)
    {
      secureURL := true;
    }

    method DisableSecureURL()
      requires Valid()
      modifies this
      ensures Valid()
      ensures Current() == old(Current()).(secureURL := false)
    {
      secureURL := false;
    }

    /** The hash of the email's normal form: md5 of the UTF-8 bytes of
        strtolower(trim($email)). */
    function GetEmailHash(email: string): (h: string)
      ensures IsHexDigest(h)
    {
      md5(Http.Utf8(Normalize(email)))
    }

    /** The hash depends on the email only through its normal form. */
    lemma EmailHashCanonical(email: string)
      ensures GetEmailHash(Normalize(email)) == GetEmailHash(email)
    {
      NormalizeIdempotent(email);
    }

    /** Emails that differ only in ASCII case hash the same. */
    lemma EmailHashIgnoresCase(a: string, b: string)
      requires Lower(a) == Lower(b)
      ensures GetEmailHash(a) == GetEmailHash(b)
    {
      NormalizeIgnoresCase(a, b);
    }

    /** Whitespace around an email does not change its hash. */
    lemma EmailHashIgnoresPadding(pre: string, email: string, post: string)
      requires forall k :: 0 <= k < |pre| ==> IsTrimChar(pre[k])
      requires forall k :: 0 <= k < |post| ==> IsTrimChar(post[k])
      ensures GetEmailHash(pre + email + post) == GetEmailHash(email)
    {
      NormalizeIgnoresPadding(pre, email, post);
    }

    method EnableForceDefault()
      requires Valid()
      modifies this
      ensures Valid()
      ensures Current() == old(Current()).(forceDefault := true)
    {
      forceDefault := true;
    }

    method DisableForceDefault()
      requires Valid()
      modifies this
      ensures Valid()
      ensures Current() == old(Current()).(forceDefault := false)
    {
      forceDefault := false;
    }

    function UseForceDefault(): bool
      reads this
    {
      forceDefault
    }

    /** The endpoint and hash that precede the query. */
    function Endpoint(email: string): string
      reads this
    {
      (if UseSecureURL() then HTTPS_URL else HTTP_URL) + GetEmailHash(email) + "?"
    }

    /** The avatar URL of `email` under the current settings. */
    function BuildURL(email: string): (url: string)
      reads this
      requires Valid()
      ensures url == (if secureURL then HTTPS_URL else HTTP_URL) + GetEmailHash(email) + "?"
                     + QueryString(size, rating, defaultImage, forceDefault)
    {
      ListedNamesUnreserved(rating);
      QueryTextOf(size, rating, defaultImage, forceDefault);
      Endpoint(email) + Http.BuildQuery(Params(GetSize(), GetRating(), GetDefaultImage(), UseForceDefault()))
    }

    /** The URL starts with the HTTPS endpoint exactly when the secure URL
        is enabled, and with the HTTP endpoint otherwise. */
    lemma BuildURLScheme(email: string)
      requires Valid()
      ensures HTTPS_URL <= BuildURL(email) <==> secureURL
      ensures HTTP_URL <= BuildURL(email) <==> !secureURL
    {
      var base := if secureURL then HTTPS_URL else HTTP_URL;
      PrefixOfConcat(base, GetEmailHash(email), "?", QueryString(size, rating, defaultImage, forceDefault));
      EndpointPrefixes(secureURL, BuildURL(email));
    }

    /** The URL is the endpoint, then a query from which a reader recovers
        every parameter buildURL assembled, in order. */
    lemma BuildURLReadsBack(email: string)
      requires Valid()
      ensures Endpoint(email) <= BuildURL(email)
      ensures Http.ParseQuery(BuildURL(email)[|Endpoint(email)|..])
              == Http.Some(Http.PairBytes(Params(size, rating, defaultImage, forceDefault)))
    {
      var e := Endpoint(email);
      var ps := Params(size, rating, defaultImage, forceDefault);
      assert BuildURL(email) == e + Http.BuildQuery(ps);
      assert BuildURL(email)[|e|..] == Http.BuildQuery(ps);
      Http.ParseBuildQuery(ps);
    }
  }
}
