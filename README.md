# User directory: filter, avatars, error normalisation and the directory state

This project models the logic of a small Vue user-directory client, in Dafny.

- **User service** (`UserService`). It filters users by a search term. It gives each fetched record an avatar URL from a pool of 70 images. Its two formatters, `formatPhone` and `formatAddress`, are modelled too. All of these are pure functions over data that has already been fetched.
- **Intercepted HTTP client** (`ApiClient`). A failed response becomes a uniform `ApiError`. The message falls back from the server's message, to the transport's message, to `"Error desconocido"`; `status` and `code` are carried across. Successful responses pass through.
- **Directory composable** (`UseUsers`). It is a class that holds the six refs (`users`, `loading`, `error`, `searchTerm`, `selectedUser`, `modalOpen`). Its methods change them the way `fetchUsers`, `selectUser`, `closeModal` and `clearError` do. `fetchUsers` awaits in the middle, so it is split into `BeginFetch` and `CompleteFetch`. The 300 ms timer of `closeModal` is a pending clear that the environment fires with `FireClear`. Two ghost counters track the fetches in flight and the clears pending. `filteredUsers` is a function of the state.
- **JavaScript primitives** (`Js`, `Seqs`). These are the string and number operations the code uses: `trim`, `toLowerCase`, `includes`, `startsWith`, `\d`/`\s`, `%`, the decimal text of a number in a template string, and `Array.prototype.filter`. `Js.IndexOf` and `Js.LastIndexOf` are not used by the code; they are proof helpers for `UserService.ParseAddress`, which reads a formatted address back so that `UserService.AddressRoundTrip` can state the inverse of `formatAddress`.

The files are `wrappers.dfy`, `seqs.dfy`, `js.dfy`, `interfaces.dfy`, `api_client.dfy`, `user_service.dfy` and `use_users.dfy`. They are verified together.

Two behaviours of the code are worth stating on their own:

- **A scheduled clear is not cancelled.** `selectUser` does not cancel a clear scheduled by `closeModal` (src/composables/useUsers.ts:52-63). `UseUsers.ReselectDuringClose` proves that the stale clear nulls the new selection and leaves the modal open with no user. So "modal open implies a user is selected" is not an invariant. `Directory.Valid` keeps the invariant that does hold: a selection that outlives a closed modal always has a clear pending.
- **`formatPhone` keeps all `\s` whitespace.** Its doc comment (src/services/userService.ts:98-99) speaks of keeping numbers, spaces and hyphens. The regular expression at line 102 keeps every `\s` character (tabs, line breaks, no-break spaces, and so on) and also `(`, `)` and `.`; the model follows the regular expression.

## Model

| member | source | states |
|---|---|---|
| `Seqs.Filter` | src/services/userService.ts:70-75 | the result is no longer than the input and every element of it passes the test |
| `Seqs.FilterMembership` | src/services/userService.ts:70-75 | an element is in the result if and only if it is in the input and passes the test |
| `Seqs.FilterIsSubsequence` | src/services/userService.ts:70-75 | the result is an order-preserving subsequence of the input |
| `Seqs.FilterKeepsAll` | src/services/userService.ts:70-75 | when every element passes, the input comes back unchanged |
| `Seqs.FilterIdempotent` | src/services/userService.ts:102 | filtering twice with the same test gives the same result as filtering once |
| `Seqs.FilterCounts` | src/services/userService.ts:102 | an accepted value keeps every occurrence; a rejected value keeps none |
| `Js.TrimIsCore` | src/services/userService.ts:67 | `trim` returns a slice of its input; only whitespace is cut from either end; the result neither starts nor ends with whitespace |
| `Js.TrimEmptyIffAllSpace` | src/services/userService.ts:67 | the trimmed term is empty (falsy) if and only if the term is all whitespace |
| `Js.TrimIgnoresPadding` | src/services/userService.ts:69 | whitespace added before or after a string does not change the trimmed result |
| `Js.LowerAllSpace` | src/services/userService.ts:69 | lower-casing neither adds nor removes whitespace, so lowering and then trimming sees the same padding |
| `Js.NatToDecimal` | src/services/userService.ts:19 | the decimal text of a number is non-empty, all digits, and has no leading zero |
| `Js.DecimalRoundTrip` | src/services/userService.ts:19 | reading back the decimal text of a number gives the number |
| `Js.DecimalInjective` | src/services/userService.ts:19 | different numbers have different decimal texts |
| `Js.IntToDecimal` | src/services/userService.ts:42 | a negative number is written as `-` followed by the digits of its magnitude |
| `Js.JsRemainder` | src/services/userService.ts:42 | JavaScript's `%`: the result is strictly between -n and n, has the sign of the dividend, equals Dafny's `%` for a non-negative dividend, and is what is left after the quotient truncated toward zero |
| `UserService.AvatarIndex` | src/services/userService.ts:19 | the list avatar number `(index % 70) + 1` is always in [1, 70] |
| `UserService.ByIdAvatarIndex` | src/services/userService.ts:42 | the by-id avatar number `(id % 70) + 1` is in [1, 70] and equals the list rule for `id >= 0`; for a negative id it is `-((-id) % 70) + 1`, in [-68, 1] |
| `UserService.NegativeIdAvatar` | src/services/userService.ts:42 | the record fetched by id -5 gets the avatar base followed by `-4`, as JavaScript's truncating `%` gives |
| `UserService.SearchKey` | src/services/userService.ts:69 | the key is the term lowered and then trimmed, and is never longer than the term |
| `UserService.MatchesKey` | src/services/userService.ts:72-74 | a user matches when the key occurs in its lowered name, its lowered username or its lowered email |
| `UserService.Matcher` | src/services/userService.ts:71-74 | the callback passed to `filter`: `MatchesKey` with the key fixed; its effect on the result is what `FilterMembershipCharacterised` and `FilterResultMatches` state |
| `Js.IsSpace` | src/services/userService.ts:67-69 | the ECMAScript WhiteSpace and LineTerminator characters, which `trim` strips here and `\s` matches at line 102: TAB, VT, FF, space, NBSP, U+1680, U+2000 to U+200A, U+202F, U+205F, U+3000, U+FEFF, LF, CR, U+2028 and U+2029 |
| `Js.IsDigit` | src/services/userService.ts:102 | `\d`: the ASCII digits `0` to `9` |
| `UserService.IsPhoneChar` | src/services/userService.ts:102 | the character class `[\d\s-().]`: an ASCII digit, an ECMAScript whitespace or line-terminator character, `-`, `(`, `)` or `.` |
| `Js.Trim` | src/services/userService.ts:67-69 | `trim` cuts the leading and then the trailing whitespace, and is never longer than its input |
| `Js.Lower` | src/services/userService.ts:69-74 | `toLowerCase` keeps the length and lowers each character on its own |
| `Js.Includes` | src/services/userService.ts:72-74 | `includes` holds when the needle occurs at some position of the string, the end included |
| `Js.StartsWith` | src/services/userService.ts:90 | `startsWith` holds when the prefix is a prefix of the string |
| `ApiClient.Truthy` | src/services/apiClient.ts:23 | the left side of `||` wins when the string is present and non-empty |
| `UserService.AvatarUrl` | src/services/userService.ts:19 | an avatar URL starts with the pool's base URL |
| `UserService.WithAvatars` | src/services/userService.ts:17-20 | the list keeps its length; each record keeps every field except `avatar`; the record at position i gets base + decimal((i % 70) + 1) |
| `UserService.AvatarsCycle` | src/services/userService.ts:19 | avatars repeat every 70 positions |
| `UserService.AvatarsDistinctWithinPool` | src/services/userService.ts:14-19 | two records fewer than 70 positions apart have different avatars |
| `UserService.GetAllUsers` | src/services/userService.ts:9-31 | a failure is rethrown unchanged; a success returns the decorated list, the response status and the fixed success message |
| `UserService.GetUserById` | src/services/userService.ts:36-54 | a failure is rethrown unchanged; a success returns the record with only `avatar` replaced (suffix from the id), the response status and the fixed message |
| `UserService.ByIdUsesListPosition` | src/services/userService.ts:40-43 | a record fetched by a non-negative id gets the avatar that the list gives to position id |
| `UserService.ListAndByIdAvatarsDiffer` | src/services/userService.ts:40-43 | when ids count from 1 along the list, a record's list avatar differs from its by-id avatar |
| `UserService.FilterUsersByName` | src/services/userService.ts:66-76 | the result is never longer than the input |
| `UserService.SearchKeyEmptyIffBlank` | src/services/userService.ts:67-69 | both the lowered-and-trimmed key and the trimmed term are empty if and only if the term is all whitespace |
| `UserService.BlankTermReturnsInput` | src/services/userService.ts:67 | a blank term returns the input list itself: same elements, same order |
| `UserService.FilterMembershipCharacterised` | src/services/userService.ts:69-75 | for a non-blank term the key is non-empty, and a user is in the result if and only if it is in the input and the key is part of its lowered name, username or email |
| `UserService.FilterResultMatches` | src/services/userService.ts:70-75 | for every term, every user in the result matches the search key |
| `UserService.FilterPreservesOrder` | src/services/userService.ts:67-75 | for every term, the result is an order-preserving subsequence of the input |
| `UserService.ShortcutAgreesWithFilter` | src/services/userService.ts:67-75 | the blank-term shortcut gives the same result as filtering by the empty key |
| `UserService.PaddingIgnored` | src/services/userService.ts:69 | whitespace before or after the term never changes the result |
| `UserService.CaseOfTermIgnored` | src/services/userService.ts:69-74 | lower-casing the term first never changes the result |
| `UserService.FormatPhone` | src/services/userService.ts:101-103 | the output is no longer than the input and has only digits, `\s` whitespace, `-`, `(`, `)` and `.` |
| `UserService.FormatPhoneKeepsAllowed` | src/services/userService.ts:102 | kept characters stay in their original order; each allowed character keeps every occurrence and each other character keeps none |
| `UserService.FormatPhoneIdempotent` | src/services/userService.ts:102 | formatting an already formatted phone string changes nothing |
| `UserService.FormatPhoneFixpoint` | src/services/userService.ts:102 | a phone string comes back unchanged if and only if all its characters are allowed |
| `UserService.FormatAddress` | src/services/userService.ts:81-83 | the text starts with the street and is 5 characters longer than street, suite, city and zip code together |
| `UserService.FormatAddressIgnoresGeo` | src/services/userService.ts:82 | `geo` does not affect the text |
| `UserService.AddressRoundTrip` | src/services/userService.ts:82 | when street and suite have no comma and the zip code has no space, street, suite, city and zip code can be read back from the text |
| `UserService.UrlCandidate` | src/services/userService.ts:90 | the string passed to the URL parser starts with `http` and ends with the input, and it equals the input if and only if the input already starts with `http` |
| `ApiClient.OrElse` | src/services/apiClient.ts:23 | the `or` fallback: a present, non-empty string wins; otherwise the fallback |
| `ApiClient.ServerMessage` | src/services/apiClient.ts:23 | `error.response?.data?.message` is present only when a response with a body exists, and then it is the body's message |
| `ApiClient.NormaliseError` | src/services/apiClient.ts:21-26 | the message is never empty; it is the server message if truthy, else the transport message if truthy, else `Error desconocido`; the status is present exactly when a response exists; the code is copied unchanged |
| `ApiClient.Intercept` | src/services/apiClient.ts:19-28 | a success passes through unchanged; a failure is rejected with its normalised error |
| `ApiClient.MessageSources` | src/services/apiClient.ts:23 | the message is one of the three candidates, and a truthy server message hides the transport message |
| `UseUsers.Settle` | src/composables/useUsers.ts:41-44 | a resolved service call leads to the success branch with its response; a rejected one leads to the catch branch with the error's message |
| `UseUsers.FetchErrorMessage` | src/composables/useUsers.ts:45 | the stored error is never empty: the thrown message if truthy, otherwise `Error al cargar los usuarios` |
| `UseUsers.InterceptedFailureKeepsMessage` | src/composables/useUsers.ts:45 | for a failure that came through the interceptor, the stored error is the normalised message, so the composable's fallback never shows |
| `UseUsers.Directory.constructor` | src/composables/useUsers.ts:22-27 | initial state: no users, not loading, no error, empty term, no selection, modal closed |
| `UseUsers.Directory.FilteredUsers` | src/composables/useUsers.ts:30 | the computed list is an order-preserving subsequence of `users`, and each of its users matches the current search key |
| `UseUsers.Directory.BeginFetch` | src/composables/useUsers.ts:34-35 | `loading` becomes true and `error` becomes null; users, term, selection and modal are unchanged |
| `UseUsers.Directory.CompleteFetch` | src/composables/useUsers.ts:41-49 | on success, `users` is replaced wholesale and `error` is unchanged; on failure, `users` is unchanged and `error` is the non-empty message; in both cases `loading` becomes false and nothing else changes |
| `UseUsers.Directory.FetchUsers` | src/composables/useUsers.ts:33-50 | a whole non-overlapping fetch: success gives the new list and no error; failure keeps the old list and sets the error; loading ends false |
| `UseUsers.Directory.SelectUser` | src/composables/useUsers.ts:52-55 | the selection becomes the user and the modal opens; nothing else changes, and a pending clear stays pending |
| `UseUsers.Directory.CloseModal` | src/composables/useUsers.ts:57-63 | the modal closes at once; the selection is kept and one more clear is pending |
| `UseUsers.Directory.FireClear` | src/composables/useUsers.ts:60-62 | a pending clear sets the selection to null whatever it is; the modal flag and everything else are unchanged |
| `UseUsers.Directory.ClearError` | src/composables/useUsers.ts:65-67 | `error` becomes null and nothing else changes |
| `UseUsers.Directory.SetSearchTerm` | src/composables/useUsers.ts:25 | writing the exposed term ref changes only the term |
| `UseUsers.SelectTwice` | src/composables/useUsers.ts:52-55 | after two selections, the second user is shown in an open modal |
| `UseUsers.CloseThenClear` | src/composables/useUsers.ts:57-63 | right after closing, the modal is closed and the user is still selected; after the clear fires, the selection is null |
| `UseUsers.ReselectDuringClose` | src/composables/useUsers.ts:52-63 | select, close, select again, then fire the old clear: the modal is open and the selection is null |
| `UseUsers.FailedReloadKeepsUsers` | src/composables/useUsers.ts:33-50 | a failed reload keeps the earlier list, stops loading and sets a non-empty error; `clearError` then removes it |
| `UseUsers.OverlappingFetches` | src/composables/useUsers.ts:33-50 | of two overlapping fetches, the first to settle already clears `loading`, and the last to settle decides `users` |

## Left out

- HTTP requests are not modelled. Each fetch takes the settled outcome of the intercepted client as an input. The axios instance setup (base URL, 10 s timeout, JSON header) is foreign-library configuration and is also not modelled.
- `console.error` logging is not modelled, because it is I/O.
- Timers and wall-clock time are not modelled. The 800 ms delay is the gap between `BeginFetch` and `CompleteFetch`. The 300 ms timer is `FireClear`, and the environment decides when it fires.
- The `onMounted` auto-fetch and Vue's reactivity are not modelled. `filteredUsers` is a function of the state, not a subscription.
- `isValidUrl`'s answer comes from the WHATWG `URL` parser, which is foreign code. Only its `https://` prefixing (`UrlCandidate`) is modelled.
- The value of `AVATAR_BASE_URL` is not modelled. It lives in src/constants, which is not part of this model, so the avatar base URL is a parameter.
- Js.Lower: it lower-cases ASCII letters only. JavaScript's full Unicode `toLowerCase`, including mappings that change length, is not modelled.
- UserService.ByIdAvatarIndex: ids are unbounded integers. JavaScript numbers that are fractional or above 2^53 are not modelled.
- ApiClient.ServerMessage: a server `message` that is not a string is not modelled (a truthy non-string value would be passed on as is).
- `FilterUsersByName` returns the same array object for a blank term. The model has value semantics, so it can only state that the list is equal (same elements, same order), not that it is the same object.
- Overlapping `fetchUsers` calls can interleave in any order of `BeginFetch` and `CompleteFetch`. Only the consequences shown in `OverlappingFetches` are stated. No rule is given for which call wins, because the code has none.
- Consumers writing `users`, `loading`, `error`, `selectedUser` or `modalOpen` directly through the exposed refs are not modelled. Only the term, which the search box writes, is modelled (`SetSearchTerm`).
