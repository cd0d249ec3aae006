# HttpExtensions request helpers, modelled in Dafny

This project models the request-data helpers of the HttpExtensions library. These are extension methods that an Azure Functions / ASP.NET Core handler calls on its `HttpRequest`. Four parts are modelled:

- The **query-list parsers** `ParseStringList`, `ParseIntegerList` and `ParseDoubleList`. Each looks up one query parameter and splits its raw value on a separator. `ParseStringList` yields every piece. The numeric ones yield only the pieces their parser accepts, and skip the rest.
- The **pagination resolver** `GetPaginationData`. It reads a page index and a page size from the query. A missing or unparseable index becomes 1, and a missing or unparseable size becomes 20. The size is then lowered to `maxPageSize` when it is larger.
- The **`PaginationData` record**, with its derived `Offset = (Index - 1) * Size`.
- **`GetAuthorization`**. It picks the one identity of the request whose authentication scheme equals the argument, ignoring case, and returns the value of that identity's single UPN claim.

Framework objects are replaced by plain values:

- The query collection is a `map<string, string>` from a key to the raw string `Query[key].ToString()`. A missing key reads as `""`.
- The request's identities are a `seq<ClaimsIdentity>`. Each identity has an optional authentication type and a list of (type, value) claims.
- A C# `null` is `None`.
- An exception is `Err(...)` of a `Result`.
- `int` is the subset type `Int32.Int32`. Unchecked C# arithmetic is written out with `Int32.Wrap`.

Files, one module each:

- `results.dfy`: `Option`, `Result` and the exceptions.
- `int32.dfy`: the Int32 range and wrapping arithmetic.
- `string_split.dfy`: .NET `String.Split(string)`, `String.Join` and ASCII case folding.
- `int_parse.dfy`: `int.TryParse` and `int.ToString()`.
- `linq.dfy`: `Where`, a filter-and-convert `Choose`, `Single` and `SingleOrDefault`.
- `pagination_data.dfy`: the record.
- `http_request_extensions.dfy`: the parsers and the resolver.
- `authorization_extension.dfy`: the claim lookup.

The parsers and the resolver are imperative in the source: `foreach` loops that `yield return`, and locals overwritten step by step. They are modelled as methods with loops. Each method is proved equal to a specification function (`Tokens`, `Choose`, `PaginationFor`), and the lemmas are about those functions. The record and `GetAuthorization` are pure, and they are modelled as a datatype and functions.

Where the code and its tests disagree, the model follows the code. The unit tests (`tests/HttpExtensions.Domain.UnitTests/PaginationDataTests.cs:10-34`) expect `new PaginationData(index, size)` to throw `ArgumentOutOfRangeException` when `index < 0` or `size < 1`. The record at `src/HttpExtensions/Models/PaginationData.cs:3` is a plain positional record with no such check. So `PaginationData` accepts every pair of Int32 values. The tests' rule is the separate predicate `PaginationModel.IsValid`, and `ConstructorDoesNotValidate` shows that the record builds a pair the rule rejects. Because the record has no guard, `GetPaginationData` never fails. For example, a query `pageSize=0` gives a page of size 0 (`PageSizeZeroNotClamped`).

## Model

| member | source | states |
|---|---|---|
| PaginationModel.Offset | src/HttpExtensions/Models/PaginationData.cs:5 | the offset computed in unchecked Int32 arithmetic is the exact (index - 1) * size wrapped to 32 bits, and equals the exact value whenever that fits in an Int32 |
| PaginationModel.IsValid | tests/HttpExtensions.Domain.UnitTests/PaginationDataTests.cs:10-34 | the tests' rule (index at least 0, size at least 1); under it the exact (index - 1) * size is negative only for index 0. ValidityExamples pins it to the tests' cases |
| PaginationModel.FirstPageOffset | src/HttpExtensions/Models/PaginationData.cs:5 | index 1 gives offset 0 for every size |
| PaginationModel.NextPageOffset | src/HttpExtensions/Models/PaginationData.cs:5 | the next page's offset is this page's offset plus size, in wrapping Int32 addition |
| PaginationModel.NextPageOffsetExact | src/HttpExtensions/Models/PaginationData.cs:5 | without overflow, each next page starts exactly size further on |
| PaginationModel.IndexZeroOffset | src/HttpExtensions/Models/PaginationData.cs:5 | index 0, which the tests accept, gives the negative offset -size, not clamped |
| PaginationModel.OffsetExamples | tests/HttpExtensions.Domain.UnitTests/PaginationDataTests.cs:36-48 | (1,20), (2,20) and (4,20) give offsets 0, 20 and 60 |
| PaginationModel.ValidityExamples | tests/HttpExtensions.Domain.UnitTests/PaginationDataTests.cs:10-34 | the tests' rule accepts (0,1), (10,25), (1,1) and rejects (-1,1), (-1,-1), (1,-1) |
| PaginationModel.RecordSemantics | src/HttpExtensions/Models/PaginationData.cs:3 | the record stores index and size unchanged, and two records are equal exactly when their fields are |
| PaginationModel.ConstructorDoesNotValidate | src/HttpExtensions/Models/PaginationData.cs:3 | the record as written holds a pair that the tests' validity rule rejects |
| StringSplit.Split | src/HttpExtensions/Extensions/HttpRequestExtensions.cs:95 | a split always has at least one piece; JoinSplit, SplitCount and SplitPiecesSeparatorFree characterise the pieces |
| StringSplit.JoinSplit | src/HttpExtensions/Extensions/HttpRequestExtensions.cs:95 | joining the pieces of a split with the separator rebuilds the original string |
| StringSplit.SplitCount | src/HttpExtensions/Extensions/HttpRequestExtensions.cs:95 | a split has one piece more than the left-to-right, non-overlapping separator occurrences |
| StringSplit.SplitPiecesSeparatorFree | src/HttpExtensions/Extensions/HttpRequestExtensions.cs:95 | no piece of a split contains the (non-empty) separator, and the first piece is a prefix of the input |
| StringSplit.OccurrencesOfChar | src/HttpExtensions/Extensions/HttpRequestExtensions.cs:53 | for a one-character separator, the occurrences a split counts are exactly the copies of that character in the string |
| StringSplit.SplitJoin | src/HttpExtensions/Extensions/HttpRequestExtensions.cs:53 | with a one-character separator that no part contains, splitting the joined parts gives the parts back |
| StringSplit.EqualsIgnoreCase | src/HttpExtensions/Extensions/AuthorizationExtension.cs:22 | two strings are equal ignoring case exactly when they have the same length and agree position by position after folding letters |
| StringSplit.LowerIdempotent | src/HttpExtensions/Extensions/AuthorizationExtension.cs:22 | folding case a second time changes nothing |
| StringSplit.LowerUpper | src/HttpExtensions/Extensions/AuthorizationExtension.cs:22 | upper-casing before folding gives the same folded string |
| StringSplit.EqualsIgnoreCaseEquivalence | src/HttpExtensions/Extensions/AuthorizationExtension.cs:22 | case-insensitive equality is reflexive, symmetric and transitive |
| StringSplit.UpperEqualsIgnoreCase | src/HttpExtensions/Extensions/AuthorizationExtension.cs:21-22 | an upper-cased string equals the original under case-insensitive comparison |
| IntParse.TryParseInt32 | src/HttpExtensions/Extensions/HttpRequestExtensions.cs:54 | an accepted token contains a decimal digit and consists only of white space, signs and digits |
| IntParse.TryParseAccepts | src/HttpExtensions/Extensions/HttpRequestExtensions.cs:54 | a token whose trimmed, unsigned part is a non-empty digit string has a digit and only white space, signs and digits |
| IntParse.Render | tests/HttpExtensions.IntegrationTests/HttpRequestExtensionsTests.cs:24 | the invariant-culture rendering of an Int32 is non-empty and made of digits and '-'; TryParseRender shows it parses back |
| IntParse.DigitsValueDigits | src/HttpExtensions/Extensions/HttpRequestExtensions.cs:54 | reading the decimal digits of n gives back n |
| IntParse.TryParseRender | src/HttpExtensions/Extensions/HttpRequestExtensions.cs:54 | int.TryParse reads back the decimal rendering of every Int32 value |
| Linq.Where | src/HttpExtensions/Extensions/AuthorizationExtension.cs:20-22 | Where keeps exactly the elements that satisfy the predicate, and is no longer than its input |
| Linq.WhereCounts | src/HttpExtensions/Extensions/AuthorizationExtension.cs:20-22 | Where keeps nothing exactly when no position matches, and two or more exactly when two positions match; a unique match is all it keeps |
| Linq.WhereExtensional | src/HttpExtensions/Extensions/AuthorizationExtension.cs:20-22 | two predicates that agree everywhere select the same elements |
| Linq.WhereAppend | src/HttpExtensions/Extensions/AuthorizationExtension.cs:20-22 | Where distributes over concatenation |
| Linq.SingleOrDefault | src/HttpExtensions/Extensions/AuthorizationExtension.cs:20-22 | the result is null when nothing matches, a MoreThanOneMatchingElement exception exactly when two positions match, and otherwise the unique matching element |
| Linq.Single | src/HttpExtensions/Extensions/AuthorizationExtension.cs:27 | the result is a NoMatchingElement exception exactly when nothing matches, a MoreThanOneMatchingElement exception exactly when two positions match, and otherwise the unique matching element |
| Linq.ChooseAppend | src/HttpExtensions/Extensions/HttpRequestExtensions.cs:53-55 | filtering and converting distributes over concatenation, so converted values keep the order of their tokens |
| Linq.ChooseKeepsConverted | src/HttpExtensions/Extensions/HttpRequestExtensions.cs:53-55 | every token that converts contributes its value to the result |
| Linq.ChooseSound | src/HttpExtensions/Extensions/HttpRequestExtensions.cs:53-55 | there is at most one value per token, and each value is the conversion of some token |
| Linq.ChooseAll | src/HttpExtensions/Extensions/HttpRequestExtensions.cs:53-55 | when every token converts, the result is every token's value, position by position |
| Linq.ChooseNone | src/HttpExtensions/Extensions/HttpRequestExtensions.cs:53-55 | when no token converts, the result is empty |
| HttpRequestExtensions.Tokens | src/HttpExtensions/Extensions/HttpRequestExtensions.cs:50-53 | an empty raw value has no tokens; any other raw value has at least one, and they join back to it |
| HttpRequestExtensions.ParseStringList | src/HttpExtensions/Extensions/HttpRequestExtensions.cs:87-96 | a null key is an ArgumentNullException; an empty or missing value gives no pieces; otherwise the result is every piece of the split value, in order |
| HttpRequestExtensions.ParseConvertedList | src/HttpExtensions/Extensions/HttpRequestExtensions.cs:45-56 | a null key is an ArgumentNullException; otherwise the result is the converted pieces that the parser accepts, in order, with the rest skipped |
| HttpRequestExtensions.ParseIntegerList | src/HttpExtensions/Extensions/HttpRequestExtensions.cs:45-56 | a null key is an ArgumentNullException; otherwise the result is the Int32 values of the pieces int.TryParse accepts, in order |
| HttpRequestExtensions.ParseDoubleList | src/HttpExtensions/Extensions/HttpRequestExtensions.cs:66-77 | a null key is an ArgumentNullException; otherwise the result is the values of the pieces the floating-point parser accepts, in order |
| HttpRequestExtensions.EmptyValueYieldsNothing | src/HttpExtensions/Extensions/HttpRequestExtensions.cs:50-51 | a missing key or an empty value gives an empty result for every parser |
| HttpRequestExtensions.StringListReconstructs | src/HttpExtensions/Extensions/HttpRequestExtensions.cs:95 | the string list joins back to the raw value, has separator-count-plus-one pieces, and no piece contains the separator |
| HttpRequestExtensions.IntegerListSound | src/HttpExtensions/Extensions/HttpRequestExtensions.cs:53-55 | the integer list is no longer than the token list, and every value is what int.TryParse makes of some token |
| HttpRequestExtensions.IntegerListComplete | src/HttpExtensions/Extensions/HttpRequestExtensions.cs:53-55 | when every token parses, the integer list is the tokens' values, position by position |
| HttpRequestExtensions.IntegerListRoundTrip | src/HttpExtensions/Extensions/HttpRequestExtensions.cs:53-55 | decimal renderings of any Int32 list, joined by ",", parse back to the same list |
| HttpRequestExtensions.StringListExample | tests/HttpExtensions.IntegrationTests/HttpRequestExtensionsTests.cs:62-76 | "value1,value2" gives ["value1", "value2"] |
| HttpRequestExtensions.IntegerListExample | tests/HttpExtensions.IntegrationTests/HttpRequestExtensionsTests.cs:92-106 | "1,2" gives [1, 2] |
| HttpRequestExtensions.IntegerListSkipsExample | tests/HttpExtensions.IntegrationTests/HttpRequestExtensionsTests.cs:122-136 | "sdf,2" gives [2]: the unparseable token is skipped |
| HttpRequestExtensions.QueryInt | src/HttpExtensions/Extensions/HttpRequestExtensions.cs:112 | a missing parameter does not parse |
| HttpRequestExtensions.PaginationFor | src/HttpExtensions/Extensions/HttpRequestExtensions.cs:112-118 | the size never exceeds the cap; an unparseable index is 1 and an unparseable size is 20 capped; the size is always the cap, 20 or the parsed size. PaginationRule states it in full |
| HttpRequestExtensions.GetPaginationData | src/HttpExtensions/Extensions/HttpRequestExtensions.cs:106-119 | the page built step by step is the resolver's rule PaginationFor, and its size never exceeds maxPageSize |
| HttpRequestExtensions.PaginationRule | src/HttpExtensions/Extensions/HttpRequestExtensions.cs:112-118 | the index is the parsed one or 1; the size is at most the cap, equals the cap when the parsed size reaches it, is 20 (or the cap) when absent, and is otherwise the parsed size with no lower clamp |
| HttpRequestExtensions.PaginationDefaults | src/HttpExtensions/Extensions/HttpRequestExtensions.cs:106-118 | with no query parameters and the default arguments the page is (1, 20) |
| HttpRequestExtensions.PageSizeAtCapKept | tests/HttpExtensions.IntegrationTests/HttpRequestExtensionsTests.cs:15-37 | for every cap, a size parameter that renders the cap is kept as the size |
| HttpRequestExtensions.PageIndexRead | tests/HttpExtensions.IntegrationTests/HttpRequestExtensionsTests.cs:39-60 | for every Int32 index, an index parameter that renders it becomes the page index |
| HttpRequestExtensions.PageSizeClamped | src/HttpExtensions/Extensions/HttpRequestExtensions.cs:116 | pageSize=200 with the default cap of 20 gives size 20 |
| HttpRequestExtensions.PageSizeZeroNotClamped | src/HttpExtensions/Extensions/HttpRequestExtensions.cs:116 | pageSize=0 reaches the record unchanged, although the tests' validity rule rejects a size of 0 |
| AuthorizationExtension.IsScheme | src/HttpExtensions/Extensions/AuthorizationExtension.cs:21-22 | an identity with a null authentication type never matches, and a matching type has the scheme's length; CaseInsensitive and NullSchemeIgnored show its effect on the lookup |
| AuthorizationExtension.UpnValue | src/HttpExtensions/Extensions/AuthorizationExtension.cs:26-28 | an identity's UPN is the value of its only UPN claim; no such claim is a NoMatchingElement exception, and two or more are a MoreThanOneMatchingElement exception |
| AuthorizationExtension.GetAuthorization | src/HttpExtensions/Extensions/AuthorizationExtension.cs:10-29 | a null request or scheme is an ArgumentNullException; no matching identity gives ""; two matching identities are a MoreThanOneMatchingElement exception; one matching identity gives its UPN claim value |
| AuthorizationExtension.CaseInsensitive | src/HttpExtensions/Extensions/AuthorizationExtension.cs:21-22 | schemes that are equal up to ASCII letter case give the same outcome |
| AuthorizationExtension.UpperCaseSchemeSame | src/HttpExtensions/Extensions/AuthorizationExtension.cs:21-22 | upper-casing the scheme argument does not change the outcome |
| AuthorizationExtension.NullSchemeIgnored | src/HttpExtensions/Extensions/AuthorizationExtension.cs:21 | adding an identity with a null authentication type, anywhere in the list, does not change the outcome |
| AuthorizationExtension.SingleMatchExample | src/HttpExtensions/Extensions/AuthorizationExtension.cs:24-28 | a single matching identity that holds one UPN claim among other claims yields that claim's value, whatever identities of other schemes surround it |

## Left out

- `ParseJsonBodyAsync` (`HttpRequestExtensions.cs:27-35`) is not part of this model. It is asynchronous stream I/O, `System.Text.Json` deserialisation and a FluentValidation call, all foreign libraries.
- The floating-point parse in `ParseDoubleList`, `double.TryParse` with `NumberStyles.Any` and the invariant culture, is not modelled. `ParseDoubleList` takes it as the parameter `tryParseDouble`, so only the split-and-skip structure is modelled.
- IntParse.TryParseInt32 is a fixed ASCII grammar: white space U+0009..U+000D or U+0020 around an optional `+`/`-` and ASCII digits, in the Int32 range. This is the full white-space set of `NumberStyles.Integer`. It leaves out culture-specific signs and the trailing NUL characters .NET also accepts.
- The framework lookup is left out. `request.Query[...]` returns `StringValues`, joined with commas when a key has several values, and the model takes the already-joined raw string per key. `HttpContext.User.Identities` is taken as a plain list. A null `HttpContext` or `User` is not modelled, and neither is a null parameter name passed to `GetPaginationData`.
- A null `request` is left out. The list parsers and `GetPaginationData` read `request.Query` without a null check, so a null request throws `NullReferenceException` (for the `yield` iterators, only when the sequence is enumerated).
- Key matching is simplified. `request.Query` matches keys with `OrdinalIgnoreCase`, while `QueryValue` looks keys up exactly, so parameter names that differ only in case are different keys in the model.
- Deferred execution of the `yield` iterators is not modelled. In the source the `ArgumentNullException` for a null `queryKey` fires only when the sequence is first enumerated. The model returns eager results and reports the exception at the call.
- A null separator is left out. .NET treats it as the empty one, and the model splits an empty separator as .NET does, leaving the value whole.
- StringSplit.EqualsIgnoreCase is ordinal equality after folding ASCII letters. `InvariantCultureIgnoreCase` is a linguistic comparison: it also folds non-ASCII letters, ignores zero-weight code points such as the soft hyphen U+00AD, and treats canonically equivalent forms (a precomposed letter and its decomposed sequence) as equal.
- CLR exception messages and stack traces are left out. The model keeps only which exception is thrown: `ArgumentNullException` with its parameter name, and `InvalidOperationException` as NoMatchingElement / MoreThanOneMatchingElement.
