# Chat client core: chat-history cache, biometric credentials, language detection

A Dafny model of the three parts of the Expo chat client that carry logic of their own.
All calls to hosted services and device APIs are replaced by their results, passed in as
parameters.

- **Chat-history provider** (`chat_history.dfy`, module `ChatHistory`). The provider keeps
  the user's chat records in memory, plus a `loading` flag and the last `error` message. It
  reconciles that list with the result of every call to the `chat_history` table:
  - create puts the new row in front;
  - update replaces the rows with that id;
  - delete filters them out;
  - fetch and search replace the whole list.

  Create, update and delete record a failure and rethrow it. Fetch and search record a failure
  and swallow it. The class `ChatHistoryProvider` holds the three provider fields. Each remote
  call is a function parameter from the request issued to its result, so each contract also
  states which request was sent.
- **Chat table** (`chat_store.dfy`, module `ChatStore`). A stand-in table that gives meaning to
  the two selects the provider issues. The first keeps the rows of one user. The second also
  requires the title to be ILIKE `%query%`. Both order by `updated_at`, newest first. It
  includes a LIKE matcher with `%`, `_` and backslash escapes, ASCII case folding, PostgREST's
  reading of `*` as `%` in a like or ilike value, and an insertion sort proved sorted and a
  permutation.
- **Biometric and credential state** (`auth.dfy`, module `Auth`). The class `AuthProvider`
  holds:
  - the two biometric flags;
  - the credentials held in memory;
  - the SecureStore slot `auth_credentials`;
  - the AsyncStorage slot `biometric_enabled`.

  Its methods are the guarded transitions of the auth provider. `ToggleBiometric`,
  `SignInWithBiometric` and `SignIn` also return the device and backend calls they issued, in
  order, so their contracts can say which prompt or sign-in was (or was not) issued.
  `Consistent()` means "biometric sign-in is on, in memory or as persisted, only while usable
  credentials are stored". Every transition preserves it, except
  a disable whose preference write fails. `DisableWithFailedPreferenceWrite` shows that case.
- **Language detection** (`language.dfy`, module `Language`). The language detector's
  `detect` rule and `cacheUserLanguage`, on a `KeyValueStore` standing for AsyncStorage. It
  also covers the bundled languages and the fallback.

`wrappers.dfy` holds `Option`, `Outcome` (resolves, or throws with a message) and `Result`.

Three facts about the code that the model keeps:
- A failed fetch or search is recorded in `error` but not rethrown.
- The model puts no precondition on `userId`: each chat operation issues its backend call with whatever user id it is given.
- Biometric sign-in reads credentials from the secure slot, not from the session.

## Model

| member | source | states |
|---|---|---|
| `ChatHistory.SearchPattern` | contexts/ChatHistoryContext.tsx:120 | the search pattern is the query between two `%`, with nothing escaped |
| `ChatHistory.ReplaceById` | contexts/ChatHistoryContext.tsx:89-91 | the update keeps the length; every entry with the id becomes the returned row; every other entry stays in place |
| `ChatHistory.RemoveById` | contexts/ChatHistoryContext.tsx:106 | after a delete, a record is in the list exactly when it was there before and has another id; the list never grows |
| `ChatHistory.RemoveByIdAppend` | contexts/ChatHistoryContext.tsx:106 | delete works piece by piece over concatenation, so survivors keep their relative order |
| `ChatHistory.RemoveAbsentId` | contexts/ChatHistoryContext.tsx:106 | deleting an id no record carries leaves the list unchanged |
| `ChatHistory.RemoveByIdIdempotent` | contexts/ChatHistoryContext.tsx:106 | deleting twice equals deleting once |
| `ChatHistory.DeleteUndoesCreate` | contexts/ChatHistoryContext.tsx:71 | deleting a just-created record (whose id was new) gives back the list it was put in front of |
| `ChatHistory.ReplaceAbsentId` | contexts/ChatHistoryContext.tsx:89-91 | updating an id no record carries leaves the list unchanged |
| `ChatHistory.RemoveAfterReplace` | contexts/ChatHistoryContext.tsx:84-91 | when the returned row carries the updated id, update-then-delete equals delete |
| `ChatHistory.ChatHistoryProvider.constructor` | contexts/ChatHistoryContext.tsx:27-29 | the provider starts with an empty list, `loading` true and no error |
| `ChatHistory.ChatHistoryProvider.FetchChatHistory` | contexts/ChatHistoryContext.tsx:38-54 | selects the user's rows; on success the list becomes the rows (empty when the data is null) and `error` is kept; on failure the list is kept and `error` is the message, not rethrown; `loading` ends false |
| `ChatHistory.ChatHistoryProvider.CreateChat` | contexts/ChatHistoryContext.tsx:56-77 | inserts (user, title, messages); on success the returned row is at index 0, followed by the old list, and is returned; on failure the list is kept, `error` is set and the error is rethrown; `loading` untouched |
| `ChatHistory.ChatHistoryProvider.UpdateChat` | contexts/ChatHistoryContext.tsx:79-96 | updates (id, messages, now); on success the list is `ReplaceById` of the old one; on failure the list is kept, `error` is set and the error is rethrown |
| `ChatHistory.ChatHistoryProvider.DeleteChat` | contexts/ChatHistoryContext.tsx:98-111 | deletes by id; on success no entry with the id remains and the list is `RemoveById` of the old one; on failure the list is kept, `error` is set and the error is rethrown |
| `ChatHistory.ChatHistoryProvider.SearchChats` | contexts/ChatHistoryContext.tsx:113-130 | selects the user's rows ILIKE `%query%`; success replaces the list (empty on null data); failure sets `error` without rethrowing; `loading` ends false |
| `ChatStore.LowerFolds` | contexts/ChatHistoryContext.tsx:120 | ILIKE's folding leaves no upper-case ASCII letter, changes no other character, and folding twice is folding once |
| `ChatStore.ILikeIgnoresCase` | contexts/ChatHistoryContext.tsx:120 | two titles that differ only in ASCII case are kept or dropped together by any ilike pattern |
| `ChatStore.StarsAsPercent` | contexts/ChatHistoryContext.tsx:120 | the pattern the database runs is the sent one with every `*` turned into `%` and nothing else changed |
| `ChatStore.Filter` | contexts/ChatHistoryContext.tsx:116-120 | the filter keeps each row the query selects as often as the table holds it, and no other row |
| `ChatStore.SortNewestFirst` | contexts/ChatHistoryContext.tsx:121 | the ordering is newest `updated_at` first and is a permutation of its input |
| `ChatStore.SelectSpec` | contexts/ChatHistoryContext.tsx:41-45 | a select returns exactly the selected rows (with multiplicity), newest first |
| `ChatStore.DeletedChatNotListed` | contexts/ChatHistoryContext.tsx:100-103 | after a delete in the table, the next listing holds no row with that id |
| `ChatStore.LikeContains` | contexts/ChatHistoryContext.tsx:120 | for text without `%`, `_` or backslash, LIKE `%q%` holds exactly when `q` occurs in the text |
| `ChatStore.SearchIsCaseInsensitiveSubstring` | contexts/ChatHistoryContext.tsx:116-120 | a search for text without `%`, `_`, `*` or backslash keeps exactly the user's rows whose lower-cased title contains the lower-cased query |
| `ChatStore.UnderscoreSearchMatchesAnyTitle` | contexts/ChatHistoryContext.tsx:120 | `_` is a wildcard: searching "_" keeps every non-empty title of the user |
| `ChatStore.PercentSearchMatchesAll` | contexts/ChatHistoryContext.tsx:120 | `%` is a wildcard: searching "%" keeps every row of the user |
| `ChatStore.StarSearchIsWildcard` | contexts/ChatHistoryContext.tsx:120 | `*` is a wildcard too: searching "*" keeps every row of the user |
| `ChatStore.StarSuffixSearch` | contexts/ChatHistoryContext.tsx:120 | a trailing `*` adds nothing: for a query without `%`, `_`, `*` or backslash, searching the query followed by `*` keeps exactly the user's rows whose folded title contains the folded query |
| `Auth.Decode` | contexts/AuthContext.tsx:83-88 | the stored text yields credentials exactly when it is the JSON of a pair, and then that pair |
| `Auth.PreferenceEnabled` | contexts/AuthContext.tsx:59-60 | the preference counts as enabled exactly when the stored text is "true" |
| `Auth.AuthProvider.constructor` | contexts/AuthContext.tsx:28-30 | both flags start off and no credentials are in memory; the device slots keep what was stored |
| `Auth.AuthProvider.CheckBiometricAvailability` | contexts/AuthContext.tsx:51-55 | available exactly when the device has the hardware and the user is enrolled |
| `Auth.AuthProvider.GetStoredCredentials` | contexts/AuthContext.tsx:81-93 | returns the decoded slot, or None when nothing usable is stored or the read fails; never throws; credentials found are put in memory |
| `Auth.AuthProvider.StoreCredentials` | contexts/AuthContext.tsx:70-79 | a successful write puts the pair in the slot and in memory; a failed one throws "Failed to store credentials securely" and changes nothing |
| `Auth.AuthProvider.LoadBiometricPreference` | contexts/AuthContext.tsx:57-68 | the flag follows the persisted text; when on, stored credentials are loaded; a failed read changes nothing; `Consistent` is kept |
| `Auth.AuthProvider.ToggleBiometric` | contexts/AuthContext.tsx:95-116 | enabling prompts first and acts only on prompt success, a session email and in-memory credentials: store, persist "true", set the flag, stopping at the first failed write; disabling issues no prompt: delete, forget the credentials, persist "false", clear the flag; `Consistent` is kept unless disabling's preference write fails |
| `Auth.AuthProvider.SignInWithBiometric` | contexts/AuthContext.tsx:118-145 | checks in order: not enabled or not available throws "not available" with no call issued; a failed prompt throws "failed"; missing credentials throw "No stored credentials found"; otherwise it signs in with exactly the stored pair |
| `Auth.AuthProvider.SignIn` | contexts/AuthContext.tsx:155-167 | an auth error throws and changes nothing; otherwise the pair is kept in memory and written to the secure slot only while biometric is enabled |
| `Auth.AuthProvider.SignOut` | contexts/AuthContext.tsx:169-175 | success forgets the in-memory credentials; an error throws and keeps them |
| `Auth.EnableThenSignInWithBiometric` | contexts/AuthContext.tsx:95-145 | sign in, enable, sign out, then a biometric sign-in signs in with exactly the typed pair |
| `Auth.DisableWithFailedPreferenceWrite` | contexts/AuthContext.tsx:109-136 | a disable whose "false" write fails leaves the flag on with nothing stored, so the next biometric sign-in throws "No stored credentials found" |
| `Language.PrimarySubtag` | i18n/index.ts:20 | `split('-')[0]`: a prefix of the locale with no `-`, which is the whole locale or is followed by `-` |
| `Language.Detect` | i18n/index.ts:14-24 | a failed read gives "en"; a non-empty saved language is returned verbatim; otherwise (absent or empty) the result is the locale's primary subtag |
| `Language.CacheUserLanguage` | i18n/index.ts:26-32 | a successful write stores the language under "user-language"; when that language is non-empty, `detect` then returns it for any locale; a failed write changes nothing |
| `Language.ResolvedLanguage` | i18n/index.ts:39-45 | the bundle served is always one of en, zh, es, fr; it is the detected language itself when bundled, and "en" when neither the language nor its primary subtag is bundled |
| `Language.FallbackIsBundled` | i18n/index.ts:45 | the fallback "en" is bundled, and for every storage and locale a failed storage read resolves to "en" |

## Left out

- Supabase, SecureStore, AsyncStorage and LocalAuthentication are represented only by their results, passed in as parameters. A device API that rejects where the source does not catch it (the prompt, `hasHardwareAsync`) is not modelled.
- The credentials JSON encoding is opaque. A slot holds either the JSON of a pair or unparsable text. JSON of some other object, which `JSON.parse` would accept, is not modelled.
- Timestamps are integers. The ISO text of `new Date().toISOString()` is not modelled. Messages are opaque strings.
- ChatHistory.ChatHistoryProvider.FetchChatHistory: the `loading` flag being true while the request is in flight is not stated, because a sequential model has no point where a render observes it. Only the final `false` is stated. The same holds for `SearchChats`.
- A session without a user (`session?.user?.id` undefined) is not modelled: the user id is a parameter.
- ChatStore.Lower: case folding covers ASCII only. The database folds by its locale.
- ChatStore.Like: a pattern that ends in a lone backslash is an error in the database. Here it matches a literal backslash. The search pattern always ends in `%`, so the provider never sends such a pattern.
- ChatStore.SortNewestFirst: it fixes one order for rows with equal `updated_at`, which the database leaves unspecified.
- The table's insert, update and id assignment are not modelled. The provider sees only their results, and only delete is modelled on the stand-in table.
- Language.ResolvedLanguage: i18next's lookup is library code, not this repository's. Only its order of candidates is modelled: the language, then its primary subtag, then the fallback.
- The React machinery is not modelled: the `useEffect` subscriptions, the auth-state listener, the `session` and `loading` state of the auth provider, and the stale closures between renders.
- `signUp` (contexts/AuthContext.tsx:147-153) is a pass-through that throws the backend's error. It touches none of the modelled state.
- The conversation controller is not part of this model. That covers streaming fragments, title derivation and the create-then-update policy. Its source is not among the modelled files.
- contexts/LanguageContext.tsx, the chat API route, the icon scripts, the screens and the tests are not part of this model.
