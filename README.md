# Greenplum vendor support for Open Bouquet, in Dafny

This project models the core of the Greenplum plugin for Open Bouquet. The core has two parts:

- `GreenplumVendorSupport` is the vendor adapter. It reports its vendor id and recognises its
  database product by name. It describes the parameters of its JDBC URL (`hostname`, which is
  mandatory, and the optional `port` and `database`). It also builds
  `jdbc:postgresql://host[:port][/database]` from a map of named arguments. A port must parse
  as a Java `int`, and it is written back as its absolute value (`Math.abs`, so -2147483648
  stays negative).
- `PostgresRandOperatorRenderer` renders the RAND operator. With no argument it is `RANDOM()`.
  With two bounds it is `FLOOR(low  + RANDOM() * (high - low + 1))`, filled in by two
  successive `String.replace` calls. Any other number of arguments is an error.

Files:

- `results.dfy` (module `Results`): the `Option` and `Result` datatypes. A Java `null` is `None`
  and a thrown exception is `Failure`.
- `java_lang.dfy` (module `JavaLang`): the Java platform behaviour the core relies on:
  - 32-bit `int` wrap-around and `Math.abs`;
  - `Integer.valueOf` and `Integer.toString`;
  - `String.replace(CharSequence, CharSequence)`, with leftmost, non-overlapping replacement
    whose inserted text is never searched again.
- `greenplum_vendor_support.dfy` (module `GreenplumVendorSupport`): the adapter.
  - The URL template is a class whose `Add` appends to its parameter list.
  - `BuildJdbcUrl` is the imperative method. It appends to `url` step by step and is proved
    equal to the specification function `JdbcUrl`.
- `postgres_rand_operator_renderer.dfy` (module `PostgresRandOperatorRenderer`): the renderer.
  - `PrettyPrint` is the model of the code as written.
  - `RenderPositional` is the corrected, positional rendering (see Findings).

## Model

| member | source | states |
|---|---|---|
| GreenplumVendorSupport.GetVendorId | src/com/squid/core/jdbc/vendor/greenplum/GreenplumVendorSupport.java:51-53 | the vendor id the adapter reports names a product that `isSupported` accepts |
| GreenplumVendorSupport.IsSupported | src/com/squid/core/jdbc/vendor/greenplum/GreenplumVendorSupport.java:68-70 | a product is supported exactly when its name has the vendor id's length and the same character at every position (exact, case-sensitive match) |
| GreenplumVendorSupport.SupportedProductIsUnique | src/com/squid/core/jdbc/vendor/greenplum/GreenplumVendorSupport.java:68-70 | two supported products have the same name: exactly one product name is recognised |
| GreenplumVendorSupport.JdbcUrlTemplate.constructor | src/com/squid/core/jdbc/vendor/greenplum/GreenplumVendorSupport.java:90 | a new template holds the given vendor id and pattern and no parameters |
| GreenplumVendorSupport.JdbcUrlTemplate.Add | src/com/squid/core/jdbc/vendor/greenplum/GreenplumVendorSupport.java:91-93 | `add` appends one parameter at the end and keeps the earlier ones in order |
| GreenplumVendorSupport.UrlParameters | src/com/squid/core/jdbc/vendor/greenplum/GreenplumVendorSupport.java:91-93 | three parameters, hostname, port and database in that order, with distinct names; only hostname is mandatory |
| GreenplumVendorSupport.GetJdbcUrlTemplate | src/com/squid/core/jdbc/vendor/greenplum/GreenplumVendorSupport.java:89-95 | a fresh template for this vendor id with the `jdbc:postgresql://[hostname]:{port}/{database}` pattern, whose parameters are exactly `UrlParameters()` |
| GreenplumVendorSupport.JdbcUrl | src/com/squid/core/jdbc/vendor/greenplum/GreenplumVendorSupport.java:98-119 | a missing hostname fails with the "missing mandatory argument" message; the call fails exactly when the hostname is missing or the port is rejected; only the two documented messages occur; a URL always starts with `jdbc:postgresql://` followed by the hostname |
| GreenplumVendorSupport.BuildJdbcUrl | src/com/squid/core/jdbc/vendor/greenplum/GreenplumVendorSupport.java:98-119 | appending the hostname, the port and the database segments in turn yields exactly `JdbcUrl(arguments)`, the same URL or the same exception |
| GreenplumVendorSupport.MandatoryParametersAgree | src/com/squid/core/jdbc/vendor/greenplum/GreenplumVendorSupport.java:100-101 | the URL builder fails for a missing argument exactly when a parameter the template declares mandatory is absent |
| GreenplumVendorSupport.PortOmitted | src/com/squid/core/jdbc/vendor/greenplum/GreenplumVendorSupport.java:103-104 | an absent or empty port writes no port segment |
| GreenplumVendorSupport.PortSegmentNormalises | src/com/squid/core/jdbc/vendor/greenplum/GreenplumVendorSupport.java:106-108 | an accepted port `p` is written as ':' followed by text that reads back as `Math.abs(p)`; except for `INT_MIN` that text is canonical decimal (digits only, no sign, no leading zero); for `INT_MIN` it keeps its '-' |
| GreenplumVendorSupport.OnlyThreeKeysMatter | src/com/squid/core/jdbc/vendor/greenplum/GreenplumVendorSupport.java:100-116 | two argument maps that agree on hostname, port and database give the same result |
| GreenplumVendorSupport.TypicalUrl | src/com/squid/core/jdbc/vendor/greenplum/GreenplumVendorSupport.java:98-119 | db1, 5432 and sales give `jdbc:postgresql://db1:5432/sales` |
| GreenplumVendorSupport.SignedPaddedPort | src/com/squid/core/jdbc/vendor/greenplum/GreenplumVendorSupport.java:106-108 | port "+0080" is written as ":80": a '+' sign and leading zeros are normalised away |
| GreenplumVendorSupport.NegativePortUrl | src/com/squid/core/jdbc/vendor/greenplum/GreenplumVendorSupport.java:107-108 | port "-10" is written as ":10" |
| GreenplumVendorSupport.EdgeCaseUrls | src/com/squid/core/jdbc/vendor/greenplum/GreenplumVendorSupport.java:100-110 | an empty hostname is accepted, and port "80a" fails with the "valid port number" message |
| JavaLang.Abs | src/com/squid/core/jdbc/vendor/greenplum/GreenplumVendorSupport.java:108 | `Math.abs` stays within `int`: it is non-negative and equal to p or -p, except that `INT_MIN` maps to itself |
| JavaLang.IntegerValueOf | src/com/squid/core/jdbc/vendor/greenplum/GreenplumVendorSupport.java:107 | an accepted text is non-empty, starts with a digit or a sign, and yields an `int` whose sign agrees with the text's sign; after the optional sign it is a non-empty run of decimal digits whose value is the magnitude of the result |
| JavaLang.SignAndLeadingZeros | src/com/squid/core/jdbc/vendor/greenplum/GreenplumVendorSupport.java:107 | every spelling of an `int` with an optional '+' (or '-' for a value that is not positive) and any number of leading zeros before its digits parses to that `int` |
| JavaLang.LeadingZeros | src/com/squid/core/jdbc/vendor/greenplum/GreenplumVendorSupport.java:107 | leading zeros do not change the value of a run of digits |
| JavaLang.IntegerValueOfToString | src/com/squid/core/jdbc/vendor/greenplum/GreenplumVendorSupport.java:107-108 | `Integer.valueOf` reads back every `int` that `Integer.toString` writes |
| JavaLang.CanonicalDecimal | src/com/squid/core/jdbc/vendor/greenplum/GreenplumVendorSupport.java:108 | a non-negative `int` is written as plain digits with no leading zero, and those digits parse back to it |
| JavaLang.DigitsRoundTrip | src/com/squid/core/jdbc/vendor/greenplum/GreenplumVendorSupport.java:107-108 | the digits of n read back as n, and only zero starts with '0' |
| JavaLang.NatToDigits | src/com/squid/core/jdbc/vendor/greenplum/GreenplumVendorSupport.java:108 | a natural number is written as a non-empty run of decimal digits with no leading zero (a lone "0" aside) |
| JavaLang.IntToString | src/com/squid/core/jdbc/vendor/greenplum/GreenplumVendorSupport.java:108 | the text of an `int` is non-empty and starts with '-' exactly when the value is negative; `IntegerValueOfToString` reads it back |
| JavaLang.ReplaceAllIdentity | src/com/squid/core/jdbc/vendor/greenplum/postgresql/render/PostgresRandOperatorRenderer.java:48 | replacing a text by itself changes nothing |
| JavaLang.ReplaceAllNoMatch | src/com/squid/core/jdbc/vendor/greenplum/postgresql/render/PostgresRandOperatorRenderer.java:47-48 | text without an occurrence of the target comes back unchanged |
| JavaLang.ReplaceAll | src/com/squid/core/jdbc/vendor/greenplum/postgresql/render/PostgresRandOperatorRenderer.java:47-48 | for a non-empty target, the result's length is the input's length plus, for each replaced occurrence, the replacement's length minus the target's |
| JavaLang.ContainsIsReplaced | src/com/squid/core/jdbc/vendor/greenplum/postgresql/render/PostgresRandOperatorRenderer.java:47-48 | if the target occurs anywhere, at least one occurrence is replaced |
| JavaLang.ReplaceAllChanges | src/com/squid/core/jdbc/vendor/greenplum/postgresql/render/PostgresRandOperatorRenderer.java:48 | text that contains the target changes when the replacement differs from the target |
| JavaLang.ReplaceAllLeading | src/com/squid/core/jdbc/vendor/greenplum/postgresql/render/PostgresRandOperatorRenderer.java:47-48 | a leading occurrence is replaced, and the rest of the text is rewritten independently |
| JavaLang.ReplaceAllSkip | src/com/squid/core/jdbc/vendor/greenplum/postgresql/render/PostgresRandOperatorRenderer.java:47-48 | a prefix that lacks the target's first character is copied unchanged |
| JavaLang.ReplaceAllSplit | src/com/squid/core/jdbc/vendor/greenplum/postgresql/render/PostgresRandOperatorRenderer.java:48 | no occurrence straddles a boundary followed by a character outside the target, so the two sides are rewritten independently |
| PostgresRandOperatorRenderer.BoundedRandomSlots | src/com/squid/core/jdbc/vendor/greenplum/postgresql/render/PostgresRandOperatorRenderer.java:46 | the bounded template's length, and the positions at which the low bound (twice) and the high bound can be read back |
| PostgresRandOperatorRenderer.PrettyPrint | src/com/squid/core/jdbc/vendor/greenplum/postgresql/render/PostgresRandOperatorRenderer.java:42-53 | rendering succeeds exactly for zero or two arguments; otherwise it throws "RAND take 0 or 2 parameters only" |
| PostgresRandOperatorRenderer.NoArgumentIsRandom | src/com/squid/core/jdbc/vendor/greenplum/postgresql/render/PostgresRandOperatorRenderer.java:43-44 | no argument renders as `RANDOM()` |
| PostgresRandOperatorRenderer.FirstPass | src/com/squid/core/jdbc/vendor/greenplum/postgresql/render/PostgresRandOperatorRenderer.java:46-47 | the first replace puts the low bound verbatim into both low slots and leaves the high placeholder in place |
| PostgresRandOperatorRenderer.SecondPass | src/com/squid/core/jdbc/vendor/greenplum/postgresql/render/PostgresRandOperatorRenderer.java:48 | the second replace puts the high bound into its slot and also rewrites each "hight_bound" inside both copies of the low bound |
| PostgresRandOperatorRenderer.TwoArgumentsRender | src/com/squid/core/jdbc/vendor/greenplum/postgresql/render/PostgresRandOperatorRenderer.java:45-49 | closed form for every pair of bounds: the template with `high` in its slot and, in both low slots, `low` with "hight_bound" replaced by `high` |
| PostgresRandOperatorRenderer.TwoArgumentsClosedForm | src/com/squid/core/jdbc/vendor/greenplum/postgresql/render/PostgresRandOperatorRenderer.java:45-49 | a low bound without "hight_bound" in it is substituted verbatim |
| PostgresRandOperatorRenderer.BoundedRandomInjective | src/com/squid/core/jdbc/vendor/greenplum/postgresql/render/PostgresRandOperatorRenderer.java:46 | different low bounds give different positional fills of the template, for the same high bound |
| PostgresRandOperatorRenderer.TwoArgumentsVerbatimIff | src/com/squid/core/jdbc/vendor/greenplum/postgresql/render/PostgresRandOperatorRenderer.java:45-49 | both bounds appear verbatim exactly when the low bound has no "hight_bound" in it or the high bound is "hight_bound" itself |
| PostgresRandOperatorRenderer.SubstitutionHazard | src/com/squid/core/jdbc/vendor/greenplum/postgresql/render/PostgresRandOperatorRenderer.java:47-48 | bounds "hight_bound" and "10" render as `FLOOR(10  + RANDOM() * (10 - 10 + 1))`, not with the low bound in its slots |
| PostgresRandOperatorRenderer.RenderPositional | src/com/squid/core/jdbc/vendor/greenplum/postgresql/render/PostgresRandOperatorRenderer.java:42-53 | same arity rule and error message; with two bounds, each bound can be read back verbatim from its slot (low twice, high once) and the length is 2·|low| + |high| + 31 |
| PostgresRandOperatorRenderer.PositionalAgreesWithPrettyPrint | src/com/squid/core/jdbc/vendor/greenplum/postgresql/render/PostgresRandOperatorRenderer.java:42-53 | the positional rendering equals `prettyPrint`'s exactly when the arity is not two, or the low bound has no "hight_bound", or the high bound is "hight_bound" |

## Left out

- `getVendorVersion` reads `application.properties` from the class path. It is file I/O, so it is not modelled.
- `createFormatter`, `createDatabaseStatistics`, `getVendorMetadataSupport` and `METADATA` only construct or return objects of classes that are not part of this model.
- `IMetadataEngine.GREENPLUM_NAME` is not part of this model. `VENDOR_ID` is therefore an arbitrary, fixed string, and every property about it holds for any value.
- `JdbcUrlTemplate` and `JdbcUrlParameter` are not part of this model. `Add` is taken to append to an ordered list, and the boolean flag of a parameter is read as "may be omitted". The template's pattern text is stored but never interpreted.
- IntegerValueOf: only ASCII digits are modelled. `Integer.valueOf` also accepts other Unicode decimal digits.
- A `null` value stored under a key of the argument map is treated like an absent key, which is what `Map.get` makes the source do. A `null` map is not modelled.
- IsSupported: a `null` product name is not modelled. The source returns false for it. A `null` product makes `isSupported` throw at `product.getProductName()`, since it dereferences null; products are non-null here.
- PrettyPrint: a `null` argument makes `String.replace` throw, since it dereferences its replacement, and a `null` argument array makes `args.length` throw for the same reason. Neither is modelled, since the arguments here are a sequence of non-null strings. The SQL skin and the operator definition are not parameters, because the source never reads them.
- BuildJdbcUrl does not check the port's range, as in the source. Any text that parses as an `int` is accepted, negative values included.
- Strings are sequences of Unicode code points, while a Java `String` is a sequence of UTF-16 units. Replacement agrees on well-formed text. The lengths stated here, such as the 2·|low| + |high| + 31 of RenderPositional and the length equation of ReplaceAll, count code points, not Java's `length()`, when the text holds characters outside the Basic Multilingual Plane.

## Findings

| source | as written | input that shows it | evidently intended | confidence | as-written member | corrected member |
|---|---|---|---|---|---|---|
| src/com/squid/core/jdbc/vendor/greenplum/postgresql/render/PostgresRandOperatorRenderer.java:47-48 | the second `replace` scans the whole string, including the low bound already inserted, so every "hight_bound" inside the low bound is overwritten by the high bound | bounds `["hight_bound", "10"]` render as `FLOOR(10  + RANDOM() * (10 - 10 + 1))` | each bound goes verbatim into its own slot | medium, not executed | PostgresRandOperatorRenderer.SubstitutionHazard | PostgresRandOperatorRenderer.RenderPositional |
