# restful-cpp request binding, modelled in Dafny

restful.hpp is a header-only C++20 library. It maps URL paths to handler functions.
A handler declares typed parameters: `PathParam<T>`, `UrlParam<T, Key>`, `PostParam<T, Key>` and `PostBody<T>`.
For each request, `Apis::Test(url, body)` does the following:

1. It builds a `Ctx` from the url and the body, and parses the query string and the form body into tables.
2. It looks up the path, then each `/`-delimited ancestor from the longest to the shortest.
3. It sets the rest cursor just past the matched prefix.
4. It runs the route's invoker. The invoker runs one convertor per parameter, in declaration order. Each convertor writes one slot, which stays null when the text is absent or does not convert. The invoker then calls the handler once and runs one cleaner per slot.

This project models that core as pure functions over `seq<char>` strings, finite maps and an event log:

| file | module | what it models |
|---|---|---|
| wrappers.dfy | Wrappers | `Option` |
| text.dfy | Text | `find` / `find_first_of` (`npos` as `\|s\|`), `rfind` (`npos` as `None`), split, join and count on a separator |
| rest_cursor.dfy | RestCursor | `Ctx::rest_begin`, `has_rest_arg` and `get_rest_arg`; `npos` is the `Exhausted` cursor |
| param_parser.dfy | ParamParser | `get_url_params`, `parse_url_params` and `parse_content_params`, plus a reference fold over the `&`-split |
| char_conv.dfy | CharConv | base-10 `std::from_chars`, as section 20.19.3 of ISO/IEC 14882:2020 describes it |
| convertors.dfy | Convertors | the `base_convertor<T>` specialisations and `clean<T>` |
| context.dfy | Context | the context `Test` builds before route lookup |
| binding.dfy | Binding | the four `convertor<...>` specialisations; the state after the first `i` convertors; a declarative reference binding |
| invoker.dfy | Invoker | the lambda `make_invoker` returns, as a method that returns the event log |
| routes.dfy | Routes | `RegisterRestful`, the lookup loop, and `Test` |
| scenarios.dfy | Scenarios | the request traces the example programs document |

Each request, handler and user type is modelled as follows:

- A handler is an opaque identifier. The log records the context and the arguments it is called with.
- Converted values are a `Value` datatype instead of heap objects behind `void*`.
- The floating-point parser and user-supplied converters are functions in a `Platform` record, and so is the set of user types that have a cleaner.
- The width of `long` and `unsigned long` is a platform flag.

## Model

| member | source | states |
|---|---|---|
| Text.IndexOf | restful.hpp:84-90 | `find_first_of(c)` is the first index holding `c`, or the length when `c` does not occur; no earlier index holds `c` |
| Text.IndexOfMissing | restful.hpp:86-88 | the search answers `npos` exactly when the character does not occur |
| Text.FindLast | restful.hpp:597 | `rfind('/', from)` is the last `/` at or before `from` (clamped to the string); `None` means there is none at or before `from` |
| RestCursor.HasRestArg | restful.hpp:59 | `has_rest_arg`: the cursor is not `npos`; `Drain` and `GetRestArg` state what it guards |
| RestCursor.GetRestArg | restful.hpp:61-82 | the segment contains no `/`; an exhausted cursor returns empty and stays exhausted; the cursor only moves forward; a cursor at or past the end returns empty and exhausts; otherwise the segment is the path text at the cursor |
| RestCursor.Drain | restful.hpp:59-82 | calling `get_rest_arg` while `has_rest_arg` holds yields no segments exactly when the cursor is exhausted, and no segment contains `/` |
| RestCursor.DrainIsSplit | restful.hpp:61-82 | from a position inside the path, the segments read are the `/`-split of the rest of the path |
| RestCursor.DrainPastEnd | restful.hpp:66-70 | a cursor past the end yields one empty segment and is then exhausted |
| RestCursor.RestRoundTrip | restful.hpp:61-82 | the segments joined with `/` give back the rest of the path, and there is one more segment than there are `/` in it |
| Text.SplitThenJoin | restful.hpp:72-80 | joining the `/`-split of a string gives the string back |
| Text.JoinThenSplit | restful.hpp:72-80 | splitting the join of pieces that are free of the separator gives back the pieces, provided there is at least one |
| Text.SplitCount | restful.hpp:72-80 | the split has one more piece than the string has separators |
| ParamParser.PathPart | restful.hpp:579 | `urlWithoutParams` contains no `?` and is no longer than the url |
| ParamParser.QueryString | restful.hpp:84-90 | `get_url_params` is empty when the url has no `?` |
| ParamParser.UrlSplitsAtFirstQuery | restful.hpp:84-90 | a url without `?` is its own path part; otherwise it is the path part, then `?`, then the query string |
| ParamParser.QueryAfterPath | restful.hpp:84-90 | a url built from a `?`-free path, a `?` and a query splits back into that path and that query |
| ParamParser.Entry | restful.hpp:99-104 | a piece that is stored has a non-empty key free of `=`, and is that key, `=` and the value |
| ParamParser.EntryOfPair | restful.hpp:99-104 | `key=value` with a non-empty, `=`-free key is read as that key and value |
| ParamParser.ApplyFirstSegment | restful.hpp:99-104 | the loop's handling of its first piece (store when `&` comes after a non-leading `=`, else skip) is `Apply` of the text before the first `&` |
| ParamParser.FoldWithoutEquals | restful.hpp:99-102 | text without any `=` adds nothing to the table |
| ParamParser.Scan | restful.hpp:97-108 | the `while (!params.empty())` loop, with `npos` as the length; it never removes a key the table already holds |
| ParamParser.ParseUrlParams | restful.hpp:94-109 | `parse_url_params`: a key is in the table exactly when some well-formed `&`-piece of the query string names it, and it holds the value of the last such piece |
| ParamParser.ParseContentParams | restful.hpp:111-126 | `parse_content_params`: the same for the pieces of the body |
| ParamParser.ScanIsFold | restful.hpp:94-109 | the parsing loop equals a left fold of `Apply` over the `&`-split of the source |
| ParamParser.FoldSnoc | restful.hpp:94-109 | folding one more piece applies it to the folded table |
| ParamParser.FoldLastWins | restful.hpp:104 | after the fold, a key holds the value of its LAST well-formed piece; a key no piece names keeps its earlier value or stays absent |
| ParamParser.ParsedTable | restful.hpp:94-126 | the parsed table holds exactly the keys that some well-formed piece names, each with the last such value; keys are non-empty and free of `=` and `&`, and values are free of `&` |
| ParamParser.LastValueComesFromSegment | restful.hpp:104 | the value found for a key is carried by one of the pieces |
| ParamParser.ScanSegment | restful.hpp:97-107 | scanning `a&rest`, when `a` has no `&`, is scanning `rest` after `Apply` of `a` |
| ParamParser.ScanSingle | restful.hpp:97-106 | scanning a piece with no `&` is `Apply` of that piece |
| ParamParser.ScanPair | restful.hpp:97-107 | a well-formed `k=v&` at the front stores `k` as `v`, and scanning resumes after the `&` |
| ParamParser.ScanFinalPair | restful.hpp:97-106 | a final well-formed `k=v` stores `k` as `v` |
| CharConv.DigitRun | restful.hpp:283 | the longest all-digit prefix: all digits, followed by a non-digit or the end |
| CharConv.FromChars | restful.hpp:283 | `invalid_argument` exactly when the text does not start with a digit, or with `-` and a digit for a signed type; a parsed value is in range, ends the match at a non-digit or the end, and is negative only after a leading `-` |
| CharConv.ShowThenParse | restful.hpp:283-284 | every in-range value in canonical decimal, followed by text that does not start with a digit, is parsed back, and the match ends right after the number |
| CharConv.ShowOutOfRange | restful.hpp:283-284 | the spelling of an out-of-range value never parses |
| CharConv.DecimalValueOfToDecimal | restful.hpp:283 | the digits of the canonical spelling read back as the number |
| CharConv.DigitRunAfterDigits | restful.hpp:283 | the digit run of digits followed by a tail is those digits plus the tail's run |
| CharConv.ReadDigits | restful.hpp:283-284 | digits followed by a non-digit read as their value when it is in range, else as out of range |
| CharConv.ReadNegativeDigits | restful.hpp:283-284 | behind `-`, a signed parse reads the negated value when it is in range, else out of range |
| Convertors.BaseConvert | restful.hpp:264-312 | built-in types give null on empty input; a built-in result has the type's shape and range; `char`/`unsigned char` take the first character; `std::string` and `std::string_view` take the text unchanged; an integer is accepted only when the text starts with the base-10 pattern; a user type is the user's converter |
| Convertors.IntegerRoundTrip | restful.hpp:276-294 | an in-range integer in decimal, with trailing non-digit text, converts to itself |
| Convertors.IntegerOutOfRange | restful.hpp:276-294 | an out-of-range integer converts to null and never wraps |
| Convertors.IntegerSignRules | restful.hpp:276-294 | a leading `+` or blank is rejected by every integer type, and a leading `-` by the unsigned types |
| Convertors.Clean | restful.hpp:367-396 | a null slot frees nothing; whatever is freed is the slot's own value; a type with a cleaner (built-in or user-supplied) frees exactly its slot, and the generic `clean<T>` frees nothing |
| Context.MakeCtx | restful.hpp:572-582 | the context keeps the url and the body, starts the cursor at 0, has a `?`-free path that is the url before its first `?`, and parses both tables eagerly: a key is present exactly when some well-formed piece names it, and holds the value of the last such piece |
| Binding.ConvertParam | restful.hpp:322-365 | only a path parameter moves the cursor, and always forward; a path parameter with no rest argument leaves the slot null and the context unchanged; a missing query or form key leaves the slot null |
| Binding.PathCountAllPath | restful.hpp:513-514 | a list of path parameters counts all of them |
| Binding.ConvertStep | restful.hpp:322-365 | one convertor run on a cursor that has consumed `k` rest segments writes the reference value (the `k`-th segment, the key's value, or the body, converted), and consumes one more segment exactly when it is a path parameter |
| Binding.ConvertPathStep | restful.hpp:325-330 | a path parameter with a rest argument converts segment `k` and consumes it |
| Binding.ConvertOtherStep | restful.hpp:333-365 | a query, form or body parameter reads the same text whatever the cursor is |
| Binding.ConvertExhaustedStep | restful.hpp:325-328 | a path parameter after the segments ran out is null, moves nothing, and its reference value is null too |
| Binding.ConvertPrefix | restful.hpp:511-514 | after convertors `0..i-1` there is one slot per convertor; only the cursor changed in the context; it has consumed one segment per path parameter so far |
| Binding.ConvertPrefixMatches | restful.hpp:511-514 | each slot holds what its parameter reads from the original context, given the path parameters before it |
| Binding.MatchesSnoc | restful.hpp:513-514 | appending the reference value of the next parameter keeps every slot matching |
| Binding.SlotValue | restful.hpp:511-514 | slot `j` is the conversion of the raw text its parameter reads |
| Invoker.ConvertAll | restful.hpp:511-514 | the conversion loop leaves the slots and context of running every convertor in order, with one conversion event per slot, in slot order |
| Invoker.WriteSlot | restful.hpp:514 | writing convertor `i`'s result into slot `i` extends the converted prefix by one |
| Invoker.CleanAll | restful.hpp:524-525 | the cleaning loop runs cleaner `i` on slot `i` once, in order |
| Invoker.Invoke | restful.hpp:503-529 | the log is the `n` conversion events, then one handler call that sees the converted slots and the context, then `n` cleaner events |
| Invoker.AssembleLog | restful.hpp:510-528 | conversion events, then the call, then cleaner events form the invoker's log shape |
| Invoker.InvokeExactlyOnce | restful.hpp:503-529 | the handler is called once, after every conversion and before every cleaner; each slot is converted once and cleaned once; every value of a type with a cleaner is released by that slot's cleaner |
| Invoker.ShapeExactlyOnce | restful.hpp:510-528 | the exactly-once facts hold for any log of the invoker's shape |
| Routes.Register | restful.hpp:534-547 | a path that is empty or does not start with `/` raises an error and leaves the table unchanged; otherwise the key is stored verbatim with the route and every other key keeps its route |
| Routes.Seek | restful.hpp:594-601 | the truncation loop finds the longest registered ancestor cut at a `/` before the position, never the cut at index 0; it returns `None` exactly when no such ancestor is registered |
| Routes.SeekPastEnd | restful.hpp:586-597 | starting the truncation loop from the length of the whole url, as `Test` does, is starting it at the end of the path part |
| Routes.FindRoute | restful.hpp:584-601 | no match exactly when neither the path nor any ancestor is registered; an exact match puts the cursor one past the whole url; an ancestor match is the longest registered one, with the cursor just past its `/` |
| Routes.Test | restful.hpp:572-604 | a malformed url is ignored; not found exactly when no candidate is registered; otherwise the found route's invoker runs once on the parsed context, with the cursor after the match |
| Routes.DispatchToPrefix | restful.hpp:584-601 | `P/rest` reaches a registered `P` when no longer candidate is registered, and the rest cursor reads `rest` split on `/` |
| Routes.DispatchToLongestKey | restful.hpp:584-601 | when no registered key is longer than `P`, `P/rest` always reaches `P` |
| Routes.ExactMatchRest | restful.hpp:586-592 | after an exact match the cursor is `path.size() + 1` (586, 592), past the end of the path part, so (restful.hpp:66-70) it yields one empty segment and is then exhausted |
| Routes.QueryKeysUnreachable | restful.hpp:577-601 | a registered key containing `?` is never matched |
| Scenarios.PathParamRoute | example_PathParam.cpp:34 | `/path2/1/2/3/4/5` is dispatched to `/path2`, and its rest segments are 1 to 5 |
| Scenarios.PathParamExample | example_PathParam.cpp:17-41 | the three path parameters receive 1, "2" and the float parse of "3", and the handler's own loop then reads "4" and "5" |
| Scenarios.LoginQuery | example_UrlParam.cpp:28-32 | `/login?uid=123&pass=dfsfd` has the path `/login`, and its url parameters map `uid` to "123" and `pass` to "dfsfd" |
| Scenarios.UrlParamExample | example_UrlParam.cpp:9-32 | those url parameters bind 123 and "dfsfd" |
| Scenarios.CustomConvertorQuery | example_Custom_Or_OverloadDefaultConvertor.cpp:58 | the url `/post/hello?x=123` has path `/post/hello`, and its url parameters map `x` to "123" |
| Scenarios.CustomConvertorBody | example_Custom_Or_OverloadDefaultConvertor.cpp:58 | the body `x=xyz` parses to `x` -> "xyz" |
| Scenarios.CustomConvertorRoute | example_Custom_Or_OverloadDefaultConvertor.cpp:58 | the url `/post/hello?x=123` reaches `/post`, and the rest cursor reads the single segment "hello" |
| Scenarios.CustomConvertorRequest | example_Custom_Or_OverloadDefaultConvertor.cpp:58 | `Test("/post/hello?x=123", "x=xyz")`: path `/post/hello`, routed to `/post` with rest "hello", url table `x` -> "123", form table `x` -> "xyz" |
| Scenarios.CustomConvertorContext | example_Custom_Or_OverloadDefaultConvertor.cpp:58 | the context that request builds, with the cursor where the lookup leaves it, has rest segments ["hello"] and those two tables |
| Scenarios.CustomConvertorSlots | example_Custom_Or_OverloadDefaultConvertor.cpp:43-56 | with rest "hello", form `x=xyz` and query `x=123`, the path, form and url parameters receive the user converter's reading of each text |
| Scenarios.CustomConvertorExample | example_Custom_Or_OverloadDefaultConvertor.cpp:43-63 | for the request `Test("/post/hello?x=123", "x=xyz")` itself, the route is `/post` and its path, form and url parameters receive the user converter's reading of "hello", "xyz" and "123" |
| Scenarios.PostBodyExample | example_PostBody.cpp:9-32 | a body parameter receives the body unchanged |
| Scenarios.LongestAncestorExample | restful.hpp:584-603 | with `/a` and `/a/b` registered, `/a/b/c` goes to `/a/b` and `/zzz` is not found |
| Scenarios.ExactMatchExample | restful.hpp:584-591 | a request on `/path2` itself gives its path parameters null slots and exhausts the cursor |

## Left out

- Console output: the `std::cout` lines in `Test` and the `operator<<` overloads of the parameter wrappers only print.
- Floating-point conversion: the `float`, `double` and `long double` specialisations are the opaque partial function `Platform.parseFloat`. Only the empty-input check around them is modelled.
- Template machinery: `function_traits`, the per-arity invokers, `REST_ARG`, `string_view_literal` and the `static_assert`s. A handler is an identifier with a declared parameter list. The 15-parameter limit is the requirement `|route.params| <= MaxParams` on `Register`.
- Heap details: `new`/`delete` and `void*` slots become `Option<Value>` slots and `Converted`/`Cleaned` events in a log.
- The `logic_error("Unsupport convetor")` fallbacks for unsupported types: the model has no unsupported type. A user type's converter is `Platform.customConvert`, and whether it has a cleaner is `Platform.customCleaners`.
- Exception safety: the model does not claim that cleaners run when the handler throws; in the C++ code they do not.
- `Require` and `DefaultValue` parameters: restful.hpp has no code for them.
- Lazy parsing: the context parses both tables eagerly in `Test`, and so does `MakeCtx`.
- The `RegisterRestful` overloads for function pointers and lambdas only forward to the `std::function` overload; they are not modelled separately.
- Strings: a Dafny `char` stands for one byte of `std::string`; UTF-8 is not decoded, so `char` and `unsigned char` read the first byte, and every cursor position (including `|url| + 1`) counts bytes. Character signedness is not modelled: both types yield that byte as a Dafny `char`.
- Convertors.BaseConvert: the code checks only the error code of `std::from_chars` (restful.hpp:283-284), so a number followed by other text (`12abc`) converts to 12. The model follows the code; `IntegerRoundTrip` states the trailing-text behaviour.
- Routes.Register: a duplicate registration silently overwrites the earlier route, as `operator[]` does; the model states that and nothing stronger.
