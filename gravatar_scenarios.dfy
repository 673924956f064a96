/** The strings of the component's test suite: its email and hash, the
    image URL it sets, and the pieces of the URLs it expects. */
module SuiteTexts {
  import opened PhpStrings
  import Http = HttpQuery

  const Email: string := "me@klay.me"
  const Hash: string := "58b4ea643d7161296f89910822d6e6a2"
  const ImageUrl: string := "http://yoursitehere.com/path/to/image.png"

  lemma EmailIsNormal()
    ensures Normalize(Email) == Email
  {
    NormalizeNormal(Email);
  }

  lemma Decimals()
    ensures Http.NatToDecimal(80) == "80" && Http.NatToDecimal(180) == "180"
    ensures Http.NatToDecimal(0) == "0" && Http.NatToDecimal(2000) == "2000"
  {
  }

  /** The rating and image strings the suite passes, in normal form. */
  lemma NormalLetters(s: string)
    requires s == "x" || s == "g" || s == "xyz" || s == "rating" || s == "" || s == "100"
    ensures Normalize(s) == s
  {
    NormalizeNormal(s);
  }

  lemma LowerPG()
    ensures Lower("PG") == "pg"
  {
    var l := Lower("PG");
    assert l[0] == 'p' && l[1] == 'g';
  }

  lemma UpperRating()
    ensures Normalize("PG") == "pg"
  {
    TrimUnpadded("PG");
    LowerPG();
  }

  const EncodedImageUrl: string := "http%3A%2F%2Fyoursitehere.com%2Fpath%2Fto%2Fimage.png"

  lemma ImageUrlPieces()
    ensures ImageUrl == "http" + ":" + "/" + "/" + "yoursitehere.com" + "/" + "path" + "/" + "to" + "/" + "image.png"
  {
  }

  lemma EncodedPieces()
    ensures "http" + "%3A" + "%2F" + "%2F" + "yoursitehere.com" + "%2F" + "path" + "%2F" + "to" + "%2F" + "image.png" == EncodedImageUrl
  {
    assert "http" + "%3A" + "%2F" + "%2F" == "http%3A%2F%2F";
    assert "http%3A%2F%2F" + "yoursitehere.com" == "http%3A%2F%2Fyoursitehere.com";
    assert "http%3A%2F%2Fyoursitehere.com" + "%2F" + "path" == "http%3A%2F%2Fyoursitehere.com%2Fpath";
    assert "http%3A%2F%2Fyoursitehere.com%2Fpath" + "%2F" + "to" == "http%3A%2F%2Fyoursitehere.com%2Fpath%2Fto";
  }

  lemma EncodeColon() ensures Http.UrlEncode(":") == "%3A" { assert Http.Utf8(":") == [58]; }
  lemma EncodeSlash() ensures Http.UrlEncode("/") == "%2F" { assert Http.Utf8("/") == [47]; }
  lemma EncodeHttp() ensures Http.UrlEncode("http") == "http" { Http.UrlEncodeUnreserved("http"); }
  lemma EncodeHost() ensures Http.UrlEncode("yoursitehere.com") == "yoursitehere.com" { Http.UrlEncodeUnreserved("yoursitehere.com"); }
  lemma EncodePath() ensures Http.UrlEncode("path") == "path" { Http.UrlEncodeUnreserved("path"); }
  lemma EncodeTo() ensures Http.UrlEncode("to") == "to" { Http.UrlEncodeUnreserved("to"); }
  lemma EncodeFile() ensures Http.UrlEncode("image.png") == "image.png" { Http.UrlEncodeUnreserved("image.png"); }

  /** Encoding distributes over the eleven pieces of the image URL. */
  lemma EncodeEleven(a: string, b: string, c: string, d: string, e: string, f: string, g: string, h: string, i: string, j: string, k: string, r: string)
    requires Http.UrlEncode(a) + Http.UrlEncode(b) + Http.UrlEncode(c) + Http.UrlEncode(d) + Http.UrlEncode(e) + Http.UrlEncode(f)
           + Http.UrlEncode(g) + Http.UrlEncode(h) + Http.UrlEncode(i) + Http.UrlEncode(j) + Http.UrlEncode(k) == r
    ensures Http.UrlEncode(a + b + c + d + e + f + g + h + i + j + k) == r
  {
    Http.UrlEncodeConcat(a, b);
    Http.UrlEncodeConcat(a + b, c);
    Http.UrlEncodeConcat(a + b + c, d);
    Http.UrlEncodeConcat(a + b + c + d, e);
    Http.UrlEncodeConcat(a + b + c + d + e, f);
    Http.UrlEncodeConcat(a + b + c + d + e + f, g);
    Http.UrlEncodeConcat(a + b + c + d + e + f + g, h);
    Http.UrlEncodeConcat(a + b + c + d + e + f + g + h, i);
    Http.UrlEncodeConcat(a + b + c + d + e + f + g + h + i, j);
    Http.UrlEncodeConcat(a + b + c + d + e + f + g + h + i + j, k);
  }

  /** The encoded form of the image URL the suite uses. */
  lemma ImageUrlEncoded()
    ensures Http.UrlEncode(ImageUrl) == EncodedImageUrl
  {
    ImageUrlPieces();
    EncodeColon(); EncodeSlash(); EncodeHttp(); EncodeHost(); EncodePath(); EncodeTo(); EncodeFile();
    EncodedPieces();
    EncodeEleven("http", ":", "/", "/", "yoursitehere.com", "/", "path", "/", "to", "/", "image.png", EncodedImageUrl);
  }

  /** The URLs the suite expects are its endpoint, the hash of its email
      and a query text; these lemmas assemble the query texts. */
  lemma QueryTail(base: string, size: string, rating: string, x: string, y: string)
    ensures base + Hash + "?" + ("s=" + size + "&r=" + rating + x + y)
         == base + Hash + ("?" + ("s=" + size + "&r=" + rating)) + x + y
  {
  }

  lemma DefaultText(base: string)
    ensures base + Hash + "?" + ("s=" + "80" + "&r=" + "g" + "" + "") == base + Hash + "?s=80&r=g"
  {
    QueryTail(base, "80", "g", "", "");
    assert "?" + ("s=" + "80" + "&r=" + "g") == "?s=80&r=g";
  }

  lemma RatingXText(base: string)
    ensures base + Hash + "?" + ("s=" + "80" + "&r=" + "x" + "" + "") == base + Hash + "?s=80&r=x"
  {
    QueryTail(base, "80", "x", "", "");
    assert "?" + ("s=" + "80" + "&r=" + "x") == "?s=80&r=x";
  }

  lemma RatingPGText(base: string)
    ensures base + Hash + "?" + ("s=" + "80" + "&r=" + "pg" + "" + "") == base + Hash + "?s=80&r=pg"
  {
    QueryTail(base, "80", "pg", "", "");
    assert "?" + ("s=" + "80" + "&r=" + "pg") == "?s=80&r=pg";
  }

  lemma Size180Text(base: string)
    ensures base + Hash + "?" + ("s=" + "180" + "&r=" + "g" + "" + "") == base + Hash + "?s=180&r=g"
  {
    QueryTail(base, "180", "g", "", "");
    assert "?" + ("s=" + "180" + "&r=" + "g") == "?s=180&r=g";
  }

  lemma Size0Text(base: string)
    ensures base + Hash + "?" + ("s=" + "0" + "&r=" + "g" + "" + "") == base + Hash + "?s=0&r=g"
  {
    QueryTail(base, "0", "g", "", "");
    assert "?" + ("s=" + "0" + "&r=" + "g") == "?s=0&r=g";
  }

  lemma Size2000Text(base: string)
    ensures base + Hash + "?" + ("s=" + "2000" + "&r=" + "g" + "" + "") == base + Hash + "?s=2000&r=g"
  {
    QueryTail(base, "2000", "g", "", "");
    assert "?" + ("s=" + "2000" + "&r=" + "g") == "?s=2000&r=g";
  }

  lemma ForcedText(base: string)
    ensures base + Hash + "?" + ("s=" + "80" + "&r=" + "g" + "" + "&f=y") == base + Hash + "?s=80&r=g&f=y"
  {
    QueryTail(base, "80", "g", "", "&f=y");
    assert "?" + ("s=" + "80" + "&r=" + "g") == "?s=80&r=g";
    assert "?s=80&r=g" + "" + "&f=y" == "?s=80&r=g&f=y";
  }

  lemma ImageText(base: string, image: string)
    ensures base + Hash + "?" + ("s=" + "80" + "&r=" + "g" + ("&d=" + image) + "") == base + Hash + "?s=80&r=g&d=" + image
  {
    QueryTail(base, "80", "g", "&d=" + image, "");
    assert "?" + ("s=" + "80" + "&r=" + "g") == "?s=80&r=g";
    assert "?s=80&r=g" + "&d=" == "?s=80&r=g&d=";
  }
}

/** Client code replaying the scenarios of the component's test suite
    against the model. Each scenario starts from a fresh builder. The hash
    routine is constrained only on the one email the suite uses, the URL
    check only on the strings the suite tries. */
module GravatarScenarios {
  import opened PhpStrings
  import Http = HttpQuery
  import opened Gravatar
  import opened SuiteTexts

  lemma EmailHash(g: Gravatar)
    requires g.md5(Http.Utf8(Email)) == Hash
    ensures g.GetEmailHash(Email) == Hash
  {
    EmailIsNormal();
  }

  lemma ListedNameIsNormal(name: string)
    requires name in ValidDefaults
    ensures Normalize(name) == name && Http.UrlEncode(name) == name
  {
    NormalizeNormal(name);
    ListedNamesUnreserved(name);
  }

  /** "100", which is what PHP makes of the integer 100 the suite passes
      first, is not a listed name. The one listed name of its length is
      "404". */
  lemma UnlistedNumberImage()
    ensures Normalize("100") !in ValidDefaults
  {
    NormalLetters("100");
    assert "100"[0] != "404"[0];
    assert forall d :: d in ValidDefaults && d != "404" ==> |d| != 3;
  }

  /** The other short strings of the suite's list of refused images: their
      normal forms are not listed names. */
  lemma UnlistedShortImages()
    ensures Normalize("xyz") !in ValidDefaults && Normalize("") !in ValidDefaults
  {
    NormalLetters("xyz");
    NormalLetters("");
  }

  lemma UnlistedLongImages()
    ensures Normalize("john@doe.com") !in ValidDefaults && Normalize("blankk") !in ValidDefaults
  {
    NotNamed("john@doe.com");
    NotNamed("blankk");
  }

  /** The string ratings of the suite's list of refused ratings: "100" is
      what PHP makes of the integer 100, the one value the test reaches;
      the others are the rest of the list. They are not listed. */
  lemma UnknownRating(r: string)
    requires r == "100" || r == "xyz" || r == "" || r == "rating"
    ensures Normalize(r) == r && r !in ValidRatings
  {
    NormalLetters(r);
  }

  /** A string without padding whose length no listed name has is not a
      listed name in any case. */
  lemma NotNamed(s: string)
    requires s != [] && !IsTrimChar(s[0]) && !IsTrimChar(s[|s| - 1])
    requires forall d :: d in ValidDefaults ==> |d| != |s|
    ensures Normalize(s) !in ValidDefaults
  {
    TrimUnpadded(s);
  }

  lemma ImageUrlIsNotNamed()
    ensures Normalize(ImageUrl) !in ValidDefaults
  {
    NotNamed(ImageUrl);
  }

  method PossibleToUseImmediately(md5: Md5, isUrl: UrlCheck)
    requires md5(Http.Utf8(Email)) == Hash
  {
    var g := new Gravatar(md5, isUrl);
    EmailHash(g);
    Decimals();
    g.EnableSecureURL();
    var url := g.BuildURL(Email);
    DefaultText(HTTPS_URL);
    assert url == HTTPS_URL + Hash + "?s=80&r=g";
    g.DisableSecureURL();
    url := g.BuildURL(Email);
    DefaultText(HTTP_URL);
    assert url == HTTP_URL + Hash + "?s=80&r=g";
  }

  method SetRatingScenario(md5: Md5, isUrl: UrlCheck)
    requires md5(Http.Utf8(Email)) == Hash
  {
    var g := new Gravatar(md5, isUrl);
    EmailHash(g);
    Decimals();
    NormalLetters("x");
    UpperRating();
    var o := g.SetRating("x");
    assert o == Pass;
    var url := g.BuildURL(Email);
    RatingXText(HTTP_URL);
    assert url == HTTP_URL + Hash + "?s=80&r=x";
    o := g.SetRating("PG");
    assert o == Pass && g.GetRating() == "pg";
    url := g.BuildURL(Email);
    RatingPGText(HTTP_URL);
    assert url == HTTP_URL + Hash + "?s=80&r=pg";
  }

  method SetSizeScenario(md5: Md5, isUrl: UrlCheck)
    requires md5(Http.Utf8(Email)) == Hash
  {
    var g := new Gravatar(md5, isUrl);
    EmailHash(g);
    Decimals();
    NormalLetters("g");
    var o := g.SetRating("g");
    o := g.SetSize(180);
    assert o == Pass;
    var url := g.BuildURL(Email);
    Size180Text(HTTP_URL);
    assert url == HTTP_URL + Hash + "?s=180&r=g";
    o := g.SetSize(0);
    url := g.BuildURL(Email);
    Size0Text(HTTP_URL);
    assert url == HTTP_URL + Hash + "?s=0&r=g";
    o := g.SetSize(2000);
    url := g.BuildURL(Email);
    Size2000Text(HTTP_URL);
    assert url == HTTP_URL + Hash + "?s=2000&r=g";
  }

  /** Setting a named default puts it, unescaped, in the `d` parameter. */
  method NamedDefaultScenario(md5: Md5, isUrl: UrlCheck, name: string)
    requires md5(Http.Utf8(Email)) == Hash
    requires name in ValidDefaults
  {
    var g := new Gravatar(md5, isUrl);
    EmailHash(g);
    Decimals();
    ListedNameIsNormal(name);
    var o := g.SetDefaultImage(Text(name));
    o := g.SetSize(80);
    assert g.GetDefaultImage() == Named(name);
    var url := g.BuildURL(Email);
    ImageText(HTTP_URL, name);
    assert url == HTTP_URL + Hash + "?s=80&r=g&d=" + name;
  }

  /** The URL of the suite's email once an image URL `u` is the only
      setting changed from the defaults. */
  lemma UrlWithImage(g: Gravatar, u: string)
    requires g.Valid() && g.Current() == Config(Url(u), 80, "g", false, false)
    requires g.md5(Http.Utf8(Email)) == Hash
    ensures g.BuildURL(Email) == HTTP_URL + Hash + "?s=80&r=g&d=" + Http.UrlEncode(u)
  {
    EmailHash(g);
    Decimals();
    ImageText(HTTP_URL, Http.UrlEncode(u));
  }

  /** Setting an image URL puts it, escaped, in the `d` parameter. */
  method UrlDefaultScenario(md5: Md5, isUrl: UrlCheck)
    requires md5(Http.Utf8(Email)) == Hash
    requires isUrl(ImageUrl)
  {
    var g := new Gravatar(md5, isUrl);
    ImageUrlIsNotNamed();
    var o := g.SetDefaultImage(Text(ImageUrl));
    o := g.SetSize(80);
    assert g.GetDefaultImage() == Url(ImageUrl);
    var url := g.BuildURL(Email);
    UrlWithImage(g, ImageUrl);
    ImageUrlEncoded();
    assert url == HTTP_URL + Hash + "?s=80&r=g&d=" + EncodedImageUrl;
  }

  /** Passing false after an image removes the `d` parameter again. */
  method UnsetDefaultScenario(md5: Md5, isUrl: UrlCheck)
    requires md5(Http.Utf8(Email)) == Hash
    requires isUrl(ImageUrl)
  {
    var g := new Gravatar(md5, isUrl);
    EmailHash(g);
    Decimals();
    ImageUrlIsNotNamed();
    var o := g.SetDefaultImage(Text(ImageUrl));
    assert o == Pass;
    o := g.SetDefaultImage(False);
    o := g.SetSize(80);
    assert g.GetDefaultImage() == None;
    var url := g.BuildURL(Email);
    DefaultText(HTTP_URL);
    assert url == HTTP_URL + Hash + "?s=80&r=g";
  }

  method CanWorkWithForceMode(md5: Md5, isUrl: UrlCheck)
    requires md5(Http.Utf8(Email)) == Hash
  {
    var g := new Gravatar(md5, isUrl);
    EmailHash(g);
    Decimals();
    var o := g.SetSize(80);
    o := g.SetDefaultImage(False);
    g.EnableForceDefault();
    var url := g.BuildURL(Email);
    ForcedText(HTTP_URL);
    assert url == HTTP_URL + Hash + "?s=80&r=g&f=y";
    g.DisableForceDefault();
    url := g.BuildURL(Email);
    DefaultText(HTTP_URL);
    assert url == HTTP_URL + Hash + "?s=80&r=g";
  }

  /** The out-of-range sizes of the suite are refused and change
      nothing. The test stops at its first value, 10000; -10 is the other
      integer of its list. */
  method RejectsInvalidSizes(md5: Md5, isUrl: UrlCheck)
  {
    var g := new Gravatar(md5, isUrl);
    var o := g.SetSize(10000);
    assert o == Fail(InvalidSize);
    o := g.SetSize(-10);
    assert o == Fail(InvalidSize);
    assert g.GetSize() == 80;
  }

  /** The refused ratings of the suite change nothing. The test stops at
      its first value, the integer 100, which reaches setRating's trim() as
      "100"; the other strings of its list follow. */
  method RejectsInvalidRatings(md5: Md5, isUrl: UrlCheck)
  {
    var g := new Gravatar(md5, isUrl);
    UnknownRating("100");
    UnknownRating("xyz");
    UnknownRating("");
    UnknownRating("rating");
    var o := g.SetRating("100");
    assert o == Fail(InvalidRating("100"));
    o := g.SetRating("xyz");
    assert o == Fail(InvalidRating("xyz"));
    o := g.SetRating("");
    assert o == Fail(InvalidRating(""));
    o := g.SetRating("rating");
    assert o == Fail(InvalidRating("rating"));
    assert g.GetRating() == "g";
  }

  /** The refused images of the suite change nothing. The test stops at
      its first value, the integer 100, which reaches setDefaultImage as
      "100"; the other strings of its list follow. */
  method RejectsInvalidImages(md5: Md5, isUrl: UrlCheck)
    requires !isUrl("100") && !isUrl("xyz") && !isUrl("john@doe.com") && !isUrl("blankk")
  {
    var g := new Gravatar(md5, isUrl);
    UnlistedNumberImage();
    UnlistedShortImages();
    UnlistedLongImages();
    var o := g.SetDefaultImage(Text("100"));
    assert o == Fail(InvalidDefaultImage);
    o := g.SetDefaultImage(Text("xyz"));
    assert o == Fail(InvalidDefaultImage);
    o := g.SetDefaultImage(Text(""));
    assert o == Fail(InvalidDefaultImage);
    o := g.SetDefaultImage(Text("john@doe.com"));
    assert o == Fail(InvalidDefaultImage);
    o := g.SetDefaultImage(Text("blankk"));
    assert o == Fail(InvalidDefaultImage);
    assert g.GetDefaultImage() == None;
  }
}
