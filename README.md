# Gleez Gravatar avatar URL builder, modelled in Dafny

The Gleez Gravatar component has one class, `Gravatar`, which builds the URL
of a Gravatar avatar image. The class keeps five settings:

- the avatar size in pixels, from 0 to 2048, default 80;
- the highest rating allowed: g, pg, r or x, default g;
- the default image: none, one of seven names the service knows, or an
  image URL;
- whether to use the HTTPS endpoint;
- whether to force the default image.

Every setter either accepts its argument and updates its one setting, or
throws `InvalidArgumentException` and changes nothing. `buildURL($email)`
writes the URL in this order:

1. the endpoint;
2. the MD5 of the trimmed, lower-cased email;
3. `?` and a query `s=<size>&r=<rating>`;
4. `&d=<form-encoded image>` when a default image is set;
5. `&f=y` when forcing is on.

The project has four files.

- `php_strings.dfy` (module `PhpStrings`) models the PHP string built-ins
  the class calls. These are `trim()` with its default character list,
  `strtolower()` and `implode()`. `trim()` is specified by an independent
  definition: the slice between two "trim bounds". `implode()` is
  paired with a splitting function that is proved to undo it.
- `http_query.dfy` (module `HttpQuery`) models three more built-ins. The
  first is `urlencode()`, the form encoding of section 17.13.4.1 of HTML
  4.01 as PHP writes it, applied to the UTF-8 bytes of a string. The
  second is the integer-to-string conversion. The third is
  `http_build_query()`. A strict decoder and a query reader are proved to
  undo them.
- `gravatar.dfy` (module `Gravatar`) holds the class itself. The five
  settings are fields, the setters are methods with `modifies this`, and
  the getters and `buildURL` are functions of the fields. `Valid()` is the
  invariant every setter keeps, and `Current()` is a snapshot of the
  settings, used to say what a setter changed. A thrown exception is the
  result `Fail(error)` with the state unchanged; `Message` gives the
  exception's text.
- `gravatar_scenarios.dfy` (modules `SuiteTexts` and `GravatarScenarios`)
  restates the component's PHPUnit suite as client code. Each method builds
  a fresh object, calls the setters with the suite's values, and asserts
  the URL text or the refusal the suite expects.
  - `PossibleToUseImmediately`, `SetRatingScenario`, `SetSizeScenario` and
    `CanWorkWithForceMode` follow one test each.
  - The default-image test is split into three methods.
    `NamedDefaultScenario` covers the seven names, `UrlDefaultScenario`
    the image URL, and `UnsetDefaultScenario` the final `false`.
  - `RejectsInvalidSizes`, `RejectsInvalidRatings` and
    `RejectsInvalidImages` follow the three tests that expect an
    exception. Such a test ends at its first value, which throws: the size
    10000, and the integer 100 for the rating and for the image, which
    `trim()` turns into `"100"`. Each method replays that value first. It
    then also replays the other values of the test's list that the model
    can represent, as the test's intent, although the test never reaches
    them.
  - The email-hash test has no method. It compares the hash with PHP's own
    `md5`, which the model does not have. The EmailHash lemmas in
    `gravatar.dfy` cover what it checks on normalisation.

MD5 and `filter_var($image, FILTER_VALIDATE_URL, FILTER_FLAG_HOST_REQUIRED)`
are library calls whose internals are not modelled. Each object gets them
as constructor arguments and keeps them as constants. Their types state
the only facts the class relies on:

- a hash is 32 lower-case hexadecimal digits;
- a string the URL check accepts is neither `""` nor `"0"`. The type
  states only that much. The reason it holds is that an accepted URL has a
  scheme and a host.

The second fact is what makes buildURL's truth test on the default image,
`if ($this->getDefaultImage())`, mean exactly "a default image is set".

## Model

| member | source | states |
|---|---|---|
| Gravatar.Gravatar.constructor | src/Gleez/Gravatar/Gravatar.php:98-116 | A new object satisfies the invariant and has size 80, rating g, no default image, HTTP endpoint and forcing off. |
| Gravatar.Gravatar.SetDefaultImage | src/Gleez/Gravatar/Gravatar.php:155-178 | `false` clears the image. A string whose trimmed, lower-cased form is a listed name stores that form. Any other string is stored as given if it passes the URL check; otherwise the call fails with InvalidDefaultImage and nothing changes. In every case only the default image can change, and the invariant is kept. |
| Gravatar.Gravatar.GetDefaultImage | src/Gleez/Gravatar/Gravatar.php:186-189 | The stored image is valid: none, a listed name, or an accepted URL whose normal form is not a listed name. PHP reads it as true exactly when an image is set. |
| Gravatar.StoredImageTruthy | src/Gleez/Gravatar/Gravatar.php:366 | For every image setDefaultImage can store, PHP's truth test holds exactly when the image is not `false`. |
| Gravatar.Gravatar.SetSize | src/Gleez/Gravatar/Gravatar.php:201-218 | The call succeeds exactly when 0 <= n <= 2048, and then the size becomes n. Otherwise it fails with InvalidSize and nothing changes. No other setting changes. |
| Gravatar.Gravatar.GetSize | src/Gleez/Gravatar/Gravatar.php:225-228 | The size read back is always within 0 and 2048. |
| Gravatar.SizeMessageText | src/Gleez/Gravatar/Gravatar.php:209-212 | The size exception's text names the bounds 0 and 2048 in decimal. |
| Gravatar.Gravatar.SetRating | src/Gleez/Gravatar/Gravatar.php:238-252 | The call succeeds exactly when the trimmed, lower-cased argument is g, pg, r or x, and then it stores that form. Otherwise it fails with InvalidRating, carrying the normalised argument, and nothing changes. |
| Gravatar.Message | src/Gleez/Gravatar/Gravatar.php:167-169 | The text of each exception. It has no contract of its own; SizeMessageText and RatingMessageText state the size and rating texts. The default-image text is the constant at line 168. |
| Gravatar.RatingMessageText | src/Gleez/Gravatar/Gravatar.php:241-246 | The rating exception's text quotes the refused rating and lists "g, pg, r, x" in declaration order. |
| Gravatar.Gravatar.GetRating | src/Gleez/Gravatar/Gravatar.php:261-264 | The rating read back is always one of g, pg, r and x. |
| Gravatar.Gravatar.EnableSecureURL | src/Gleez/Gravatar/Gravatar.php:281-286 | The HTTPS flag becomes true, and every other setting is unchanged. |
| Gravatar.Gravatar.DisableSecureURL | src/Gleez/Gravatar/Gravatar.php:293-298 | The HTTPS flag becomes false, and every other setting is unchanged. |
| Gravatar.Gravatar.EnableForceDefault | src/Gleez/Gravatar/Gravatar.php:316-321 | The forcing flag becomes true, and every other setting is unchanged. |
| Gravatar.Gravatar.DisableForceDefault | src/Gleez/Gravatar/Gravatar.php:328-333 | The forcing flag becomes false, and every other setting is unchanged. |
| Gravatar.Gravatar.GetEmailHash | src/Gleez/Gravatar/Gravatar.php:306-309 | The hash is always 32 lower-case hexadecimal digits. |
| Gravatar.Gravatar.EmailHashCanonical | src/Gleez/Gravatar/Gravatar.php:308 | An email and its trimmed, lower-cased form have the same hash. |
| Gravatar.Gravatar.EmailHashIgnoresCase | src/Gleez/Gravatar/Gravatar.php:308 | Two emails that differ only in ASCII letter case have the same hash. |
| Gravatar.Gravatar.EmailHashIgnoresPadding | src/Gleez/Gravatar/Gravatar.php:308 | Adding trim characters around an email does not change its hash. |
| Gravatar.Params | src/Gleez/Gravatar/Gravatar.php:361-372 | The parameter array has `s` (the size in decimal) first and `r` second. It has a third entry `d` holding the image exactly when PHP reads the image as true, and it ends with `f=y` exactly when forcing is on. |
| Gravatar.IsTruthy | src/Gleez/Gravatar/Gravatar.php:366 | PHP's truth test on the stored default image. It has no contract of its own; StoredImageTruthy and GetDefaultImage state that it holds exactly when an image is set. |
| Gravatar.QueryString | src/Gleez/Gravatar/Gravatar.php:361-374 | The reference text of the query: `s=<decimal size>&r=<rating>`, then `&d=<urlencoded image>` when the image reads as true, then `&f=y` when forcing is on. It has no contract of its own; QueryTextOf proves that http_build_query writes it. |
| Gravatar.QueryTextOf | src/Gleez/Gravatar/Gravatar.php:361-374 | For all settings with a rating that needs no escaping, http_build_query of the parameter array is exactly the reference query text. So there is no trailing `&`, and `d` and `f` come only in their cases. |
| Gravatar.Gravatar.BuildURL | src/Gleez/Gravatar/Gravatar.php:351-377 | The URL is the endpoint chosen by the HTTPS flag, then the email hash, `?` and the reference query text of the current settings. Because a stored image reads as true exactly when it is set, `&d=` appears exactly when a default image is set. |
| Gravatar.Gravatar.BuildURLScheme | src/Gleez/Gravatar/Gravatar.php:32-38 | The URL starts with the HTTPS endpoint exactly when HTTPS is on, and with the HTTP endpoint exactly when it is off. |
| Gravatar.Gravatar.BuildURLReadsBack | src/Gleez/Gravatar/Gravatar.php:374 | The URL starts with the endpoint, hash and `?`. Reading the rest back as a form-encoded query gives every parameter of the array, as bytes and in order. By Utf8Injective the bytes determine the strings, so the URL is unambiguous. |
| Gravatar.ListedNamesUnreserved | src/Gleez/Gravatar/Gravatar.php:73-92 | Every listed rating and every listed default name needs no escaping, so each appears in the URL as it is. |
| Gravatar.EndpointPrefixes | src/Gleez/Gravatar/Gravatar.php:32-38 | A string that starts with one endpoint does not start with the other. |
| PhpStrings.Trim | src/Gleez/Gravatar/Gravatar.php:163 | `trim()` returns the slice of its argument between trim bounds. Everything outside the slice is a trim character, and the slice neither starts nor ends with one. |
| PhpStrings.TrimmingUnique | src/Gleez/Gravatar/Gravatar.php:163 | A string has only one such slice, so the slice definition fully determines `trim()`. |
| PhpStrings.TrimIdempotent | src/Gleez/Gravatar/Gravatar.php:163 | Trimming twice is trimming once. |
| PhpStrings.TrimIgnoresPadding | src/Gleez/Gravatar/Gravatar.php:163 | Trim characters added around a string are removed again. |
| PhpStrings.Lower | src/Gleez/Gravatar/Gravatar.php:163 | `strtolower()` keeps the length, leaves no ASCII capital, shifts each of A to Z by 32 and keeps every other character. |
| PhpStrings.LowerTrimCommute | src/Gleez/Gravatar/Gravatar.php:240 | Lower-casing and trimming commute. |
| PhpStrings.Normalize | src/Gleez/Gravatar/Gravatar.php:240 | `strtolower(trim(x))` is the lower-casing of the slice of `x` between its trim bounds, and it holds no ASCII capital. |
| PhpStrings.NormalizeIdempotent | src/Gleez/Gravatar/Gravatar.php:240 | Normalising `strtolower(trim(x))` a second time changes nothing, so a stored rating or name is already in normal form. |
| PhpStrings.NormalizeIgnoresCase | src/Gleez/Gravatar/Gravatar.php:240 | Strings equal up to ASCII case have the same normal form. |
| PhpStrings.NormalizeIgnoresPadding | src/Gleez/Gravatar/Gravatar.php:240 | Surrounding trim characters do not change the normal form. |
| PhpStrings.NormalizeNormal | src/Gleez/Gravatar/Gravatar.php:163 | A string with no surrounding trim characters and no ASCII capitals is its own normal form. |
| PhpStrings.Join | src/Gleez/Gravatar/Gravatar.php:241 | Joining a single string gives that string. |
| PhpStrings.Split | src/Gleez/Gravatar/Gravatar.php:241 | Splitting gives at least one piece, and no piece holds the delimiter. |
| PhpStrings.SplitJoin | src/Gleez/Gravatar/Gravatar.php:241 | Splitting undoes joining when no piece holds the delimiter. |
| HttpQuery.Utf8Char | src/Gleez/Gravatar/Gravatar.php:308 | A character is one to four bytes. An ASCII character is its own code, and every byte of a non-ASCII character is 0x80 or above. |
| HttpQuery.Utf8CharDecodes | src/Gleez/Gravatar/Gravatar.php:308 | The first byte of a character's UTF-8 encoding gives the encoding's length, and the bytes decode back to the character's code point. |
| HttpQuery.Utf8Injective | src/Gleez/Gravatar/Gravatar.php:308 | Different strings have different UTF-8 byte strings. |
| HttpQuery.EncodeByte | src/Gleez/Gravatar/Gravatar.php:374 | `urlencode()` of a byte: unreserved ASCII is unchanged and a space becomes `+`. Any other byte becomes `%` and two upper-case hex digits, whose values are the high and low halves of the byte. |
| HttpQuery.UrlEncode | src/Gleez/Gravatar/Gravatar.php:374 | An encoded value holds only unreserved characters, `+` and `%`, and never `&` or `=`. |
| HttpQuery.DecodeEncodeBytes | src/Gleez/Gravatar/Gravatar.php:374 | The strict decoder returns exactly the bytes that were encoded. |
| HttpQuery.EncodeBytesInjective | src/Gleez/Gravatar/Gravatar.php:374 | Different byte strings have different encodings. |
| HttpQuery.UrlEncodeConcat | src/Gleez/Gravatar/Gravatar.php:374 | The encoding of a concatenation is the concatenation of the encodings. |
| HttpQuery.UrlEncodeUnreserved | src/Gleez/Gravatar/Gravatar.php:374 | A string of unreserved ASCII characters is its own encoding. |
| HttpQuery.NatToDecimal | src/Gleez/Gravatar/Gravatar.php:362 | The decimal form of a size is one or more digits, with no leading zero unless the size is 0. |
| HttpQuery.DecimalRoundTrip | src/Gleez/Gravatar/Gravatar.php:362 | Reading the decimal form back gives the number. |
| HttpQuery.DecimalIsUnreserved | src/Gleez/Gravatar/Gravatar.php:362 | Decimal digits need no escaping. |
| HttpQuery.EncodePairs | src/Gleez/Gravatar/Gravatar.php:374 | There is one `key=value` piece per parameter, in order, with key and value urlencoded. |
| HttpQuery.BuildQuery | src/Gleez/Gravatar/Gravatar.php:374 | `http_build_query($query, '', '&')`: the `key=value` pieces joined with `&`. It has no contract of its own; ParseBuildQuery and BuildQueryAppend state what it writes. |
| HttpQuery.ParseBuildQuery | src/Gleez/Gravatar/Gravatar.php:374 | Reading a query that http_build_query wrote recovers every key and value, as bytes and in order. |
| HttpQuery.BuildQueryAppend | src/Gleez/Gravatar/Gravatar.php:367-374 | Adding a parameter at the end adds `&key=value` at the end of the query. |
| HttpQuery.PairBytes | src/Gleez/Gravatar/Gravatar.php:374 | It gives, in order, the UTF-8 bytes of each key and value. |
| GravatarScenarios.EmailHash | tests/GravatarTest.php:69-70 | When MD5 maps the suite's email to the expected hash, getEmailHash returns that hash, because the email is already normal. |
| GravatarScenarios.UnknownRating | tests/GravatarTest.php:46-53 | `"100"` (the integer 100 the test passes first, as `trim()` turns it into a string) and the strings `xyz`, `""` and `rating` of the test's list are their own normal forms and are not listed ratings. |
| GravatarScenarios.UnlistedNumberImage | tests/GravatarTest.php:58-63 | The normal form of `"100"`, which is what the integer 100 the test passes first becomes, is not a listed name. |
| GravatarScenarios.UnlistedShortImages | tests/GravatarTest.php:58-65 | The normal forms of `xyz` and of the empty string are not listed names. |
| GravatarScenarios.UnlistedLongImages | tests/GravatarTest.php:58-65 | The normal forms of `john@doe.com` and `blankk` are not listed names. |
| GravatarScenarios.NotNamed | tests/GravatarTest.php:58-65 | An unpadded string whose length no listed name has does not normalise to a listed name. |
| GravatarScenarios.ListedNameIsNormal | tests/GravatarTest.php:150-181 | Each listed name is its own normal form and its own encoding, so it is stored and sent as given. |
| GravatarScenarios.UrlWithImage | tests/GravatarTest.php:182 | With the defaults and an image URL set, the URL of the suite's email is the HTTP endpoint, the hash, `?s=80&r=g&d=` and the encoded image URL. |
| SuiteTexts.ImageUrlEncoded | tests/GravatarTest.php:158-182 | The suite's image URL encodes to `http%3A%2F%2Fyoursitehere.com%2Fpath%2Fto%2Fimage.png`. |

## Left out

- The singleton (`$instance`, `getInstance` and the private constructor) is replaced by an ordinary constructor, so each scenario starts from a fresh object. The PHPUnit suite shares one instance across its tests, and some tests read settings left by earlier ones. The default-image and force-mode tests expect `r=g`, which comes from the set-size test's `setRating('g')`, after the rating test left `pg`. Every test after the first relies on the HTTP endpoint the first test switches back to. A fresh object already has all of these values.
- The fluent `return $this` of the setters is not modelled; callers simply call the next setter on the same object.
- The MD5 digest and the `FILTER_VALIDATE_URL` grammar are not modelled. They are constructor parameters, constrained only as described above. The scenarios take the suite's expected hash as a precondition on the MD5 parameter.
- PHP's dynamic typing is not modelled. A size is an `int`, and a rating or image is a string; the image can also be `false`. The lists of the three exception tests also hold `'xyz'`, `NULL`, `TRUE` and `0.45` sizes, and non-string ratings and images. The tests never reach those values, because each ends at its first throw, and the model does not represent them. The integer 100 the rating and image tests pass first is represented by the string `"100"` that `trim()` makes of it. In PHP, `setSize` stores the argument as given once `FILTER_VALIDATE_INT` accepts it, so a numeric string such as `" 80"` would be stored as a string. The model stores integers only.
- `strtolower()` is modelled with locale-independent ASCII semantics, as in PHP 8.2 and later; older locale-dependent case mapping is not modelled.
- `trim()` and `strtolower()` work on characters rather than bytes. All trim characters and all capitals they change are ASCII, so the two views agree on UTF-8 text.
- `http_build_query` is modelled only for what buildURL uses: string keys, string or integer values, the `&` separator and the default RFC 1738 encoding. Nested arrays, numeric prefixes and `PHP_QUERY_RFC3986` are not modelled.
- HttpQuery.ParseBuildQuery: it requires at least one parameter, because the reader maps the empty query to one empty piece. buildURL always sends at least `s` and `r`.
- UseSecureURL and UseForceDefault are plain reads of the fields. Endpoint joins the endpoint chosen by the HTTPS flag, the email hash and `?`. None of the three has a contract of its own. BuildURL's contract states their part of the URL, and BuildURLReadsBack states that the URL starts with Endpoint's text.
- The class constants are read through late static binding (`static::HTTP_URL`, `static::HTTPS_URL`, `static::MIN_AVATAR_SIZE`, `static::MAX_AVATAR_SIZE`), so a subclass could override them. The model fixes them at the values the class declares, and subclasses are not modelled.
- The autoloader, the two test bootstrap files and the empty `Gravatarable` marker interfaces are not part of this model.
- The hash test of the suite compares `getEmailHash` with PHP's own `md5` and `hash('md5', …)` of the normalised email. The model covers it through EmailHashCanonical, EmailHashIgnoresCase and EmailHashIgnoresPadding, but not through the digest itself.
