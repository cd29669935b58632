# TOTP storage, modelled in Dafny

This project models the logic of the TOTP storage application (totp-storage) and proves properties of that model. The application is a Next.js / SvelteKit front end with a Rust/WASM TOTP engine. It stores authenticator secrets and shows their current one-time codes.

The model covers these parts:

- **The TOTP engine** (`Totp`, `Base32`, `Bytes`, `Url`, `Utf8`).
  - `generate_token` computes the RFC 6238 time step (X = 30 s, T0 = 0). It serialises the counter as 8 big-endian bytes, applies the dynamic truncation of section 5.3 of RFC 4226 to an HMAC-SHA1 digest, and formats the result as 6 zero-padded digits.
  - `generate_secret` is the unpadded Base32 encoding (section 6 of RFC 4648) of 20 random bytes.
  - `generate_totp_uri` builds the `otpauth://totp/` key URI. Label and issuer are percent-encoded, as in section 2.1 of RFC 3986, over their UTF-8 bytes.
  - The Base32 codec, the big-endian codec, the percent codec and the UTF-8 encoder are each proved against their inverses.
- **The in-memory entry catalog** (`Catalog`), the `TotpService` class. It is a `map` from id to entry, plus the insertion order the JavaScript `Map` keeps.
  - Methods: add with defaults, get, delete, size, and list.
  - List runs a case-insensitive search, then a stable insertion sort with the comparator of the source, then `slice` pagination.
  - Also the token with its `expiresIn` countdown (`Countdown`).
- **The two list-query wire formats.**
  - `APIPublicTotp.list` builds `page/size/q/sort[i][field]/sort[i][order]/filters` (`PublicTotpApi`). `TotpManager.listTotp` parses them back with its defaults (`TotpManager`).
  - `listEntries` builds `page/limit/search/sortBy/sortOrder` (`FeaturesApi`). The SvelteKit GET handler parses and validates them (`PublicTotpRoute`).
  - Between builder and parser sits the `application/x-www-form-urlencoded` serializer and parser (`Url.Serialize`, `Url.ParseQuery`). Both round trips are proved through it.
  - The Supabase repository turns a parsed query into an ordered list of query clauses (`TotpSupabase`).
- **Request handling.**
  - The SvelteKit handlers (`PublicTotpRoute`) and the Next.js handlers (`AppTotpRoute`). Each handler returns its reply together with the calls it made: which body was sent to the Turnstile verifier, and what was handed to the store.
  - The gate in `TotpManager.createTotp`.
- **Client helpers and state.**
  - The otpauth URI parser of the QR uploader (`QrUploader`), proved to read back what `generate_totp_uri` writes.
  - Enrollment defaults and QR-decoding errors (`OtpServices`).
  - The row-to-entity mapping (`TotpEntity`).
  - The list-fetch state of `useGetTotp`, a class whose methods replace its state (`TotpListHook`).

Things outside the model are parameters:

- HMAC-SHA1 is a function parameter returning 20 bytes.
- The clock is a parameter in milliseconds.
- Random bytes, random ids and `Math.random` values are parameters.
- The Turnstile verifier, the repositories and the QR raster code are parameters, each given as its outcome.
- A JavaScript `number` that may be `NaN` is `Option<int>`, with `None` for NaN. A left-out argument with a default is a further `Option` around it.

`addEntry` in src/lib/features/otp/api.ts attaches the token header by the same rule as `create`, so that rule is modelled once, as `PublicTotpApi.CreateHeaders`.

## Model

| member | source | states |
|---|---|---|
| Totp.Counter | totp-rs/src/lib.rs:43-44 | the counter is below 2^64 and, for a clock that fits in u64, equals the number of whole 30-second windows since the epoch |
| Totp.SameWindowSameCounter | totp-rs/src/lib.rs:43-44 | two instants in the same 30-second window give the same counter |
| Totp.CounterBytesRoundTrip | totp-rs/src/lib.rs:47 | reading the 8 big-endian counter bytes back yields the counter |
| Bytes.FromToBigEndian | totp-rs/src/lib.rs:47 | big-endian serialisation of a value below 256^w is inverted by reading it back |
| Totp.Offset | totp-rs/src/lib.rs:57 | the truncation offset is at most 15, so offset + 3 stays inside the 20-byte digest |
| Totp.Truncate | totp-rs/src/lib.rs:58-61 | the truncated value is below 2^31 and is the big-endian reading of the four digest bytes at the offset, top bit masked |
| Totp.Token | totp-rs/src/lib.rs:64-65 | the code is exactly 6 ASCII digits whose decimal value is the truncated value mod 1 000 000 |
| Totp.GenerateToken | totp-rs/src/lib.rs:37-66 | an error, with the fixed message, exactly when the secret fails Base32 decoding; otherwise a 6-digit code |
| Totp.SameWindowSameToken | totp-rs/src/lib.rs:37-66 | every instant in one 30-second window gets the same answer |
| Totp.TokenOfGeneratedSecret | totp-rs/src/lib.rs:26-66 | a generated secret always gives a token, the truncation of the HMAC of the random bytes and the counter bytes |
| Totp.GenerateSecret | totp-rs/src/lib.rs:26-33 | 32 characters from A-Z2-7 that decode back to the 20 random bytes |
| Base32.EncodeShape | totp-rs/src/lib.rs:32 | the unpadded encoding of n bytes has ceil(8n/5) characters, all from the alphabet |
| Base32.Decode | totp-rs/src/lib.rs:39-40 | decoding fails exactly when some character is neither a letter of either case, a digit 2-7 nor '='; otherwise it yields the byte count the trailing padding leaves |
| Base32.DecodeOfEncode | totp-rs/src/lib.rs:32-40 | decoding the unpadded encoding of any bytes gives those bytes back |
| Totp.TotpUri | totp-rs/src/lib.rs:102-109 | the URI starts with otpauth://totp/, the encoded label follows with no / ? # or & in it, and a '?' ends it |
| Url.PercentEncode | totp-rs/src/lib.rs:105-107 | every output character is unreserved, '%' or an upper-case hex digit, and the output is no shorter than the input |
| Url.PercentDecodeOfEncode | totp-rs/src/lib.rs:105-107 | percent-decoding the encoding of any string gives the string back |
| Url.UnreservedEncodesToItself | totp-rs/src/lib.rs:106 | a string of unreserved characters, such as a Base32 secret, is left as it is |
| Utf8.DecodeFirstOfEncodeChar | totp-rs/src/lib.rs:105-107 | the UTF-8 bytes of any character decode back to that character and its byte count |
| Url.EncodedNotDotSegment | components/totp/form/qr-code-uploader.tsx:29-32 | the encoding of a label other than . and .. is not a dot path segment, so URL parsing keeps it |
| Countdown.ExpiresIn | src/lib/server/totp-storage.service.ts:110 | expiresIn lies in 1..30 and is 30 exactly when the second count is a multiple of 30 |
| Countdown.ExpiresInEndsWindow | src/lib/features/otp/otp.service.ts:65-67 | the current second plus the time remaining is the start of the next counter window |
| TotpEntity.FromRow | lib/entities/totp.ts:19-28 | id, secret and creation time copied; issuer and label are the metadata's when non-empty, else ''; type is the metadata's when non-empty, else public; challengeKey is the metadata's |
| Catalog.NewEntry | src/lib/server/totp-storage.service.ts:31-39 | an empty or missing issuer becomes TOTP Store, a label Account + id, the type public, the challenge key '' |
| Catalog.FilterMatching | src/lib/server/totp-storage.service.ts:57-65 | the filtered list holds exactly the matching entries, with their multiplicities |
| Catalog.TextCompare | src/lib/server/totp-storage.service.ts:74-77 | the text comparison is 0 exactly on equal strings and lies in -1..1 |
| Catalog.CompareAntisymmetric | src/lib/server/totp-storage.service.ts:69-85 | the comparator is antisymmetric for every sort field and order |
| Catalog.PrecedesTransitive | src/lib/server/totp-storage.service.ts:69-85 | the comparator's order is transitive |
| Catalog.Sort | src/lib/server/totp-storage.service.ts:68-91 | sorting is a permutation of the entries |
| Catalog.SortSorted | src/lib/server/totp-storage.service.ts:68-91 | the sorted list is ordered by the comparator |
| Catalog.SortStable | src/lib/server/totp-storage.service.ts:69-85 | the entries that tie with any entry keep their original relative order |
| Catalog.DefaultOrderNewestFirst | src/lib/server/totp-storage.service.ts:86-91 | without sortBy the list is by creation time, newest first |
| Catalog.JsSlice | src/lib/server/totp-storage.service.ts:95 | slice with clamped bounds |
| Catalog.ArgumentOr | src/lib/server/totp-storage.service.ts:48-49 | a left-out or `undefined` argument takes its default; a passed number, NaN included, is kept |
| Catalog.DefaultPageIsFirstHundred | src/lib/server/totp-storage.service.ts:48-49 | with page and limit left out, a listing is the first 100 entries of the sorted list, or all of them when there are fewer |
| Catalog.PageWindow | src/lib/server/totp-storage.service.ts:93-97 | a page holds exactly min(limit, entries left after (page-1)*limit) entries, is empty past the end, and is the run of the list starting at (page-1)*limit |
| Catalog.TotpService.constructor | src/lib/server/totp-storage.service.ts:27 | the catalog starts empty |
| Catalog.TotpService.AddEntry | src/lib/server/totp-storage.service.ts:29-41 | the id maps to the new entry, the rest of the map is unchanged, the size grows by one for a fresh id, and the id is returned |
| Catalog.TotpService.GetEntry | src/lib/server/totp-storage.service.ts:43-45 | the entry stored under the id, or none exactly when it is absent |
| Catalog.TotpService.DeleteEntry | src/lib/server/totp-storage.service.ts:100-102 | true exactly when the id was present; afterwards it is absent and the rest of the map is unchanged |
| Catalog.TotpService.GetSize | src/lib/server/totp-storage.service.ts:104-106 | the number of stored entries |
| Catalog.TotpService.ListEntries | src/lib/server/totp-storage.service.ts:47-98 | page 1 and limit 100 when left out; total counts the searched entries whatever the page; the entries are the page of the sorted search result; the map is not changed |
| Catalog.GenerateToken | src/lib/server/totp-storage.service.ts:108-117 | the engine's token at the first clock reading, or its error; expiresIn is the countdown of the second reading, in 1..30 |
| Catalog.GenerateTokenCountdownEndsStep | src/lib/server/totp-storage.service.ts:109-110 | when both clock readings fall in one 30-second window, the countdown ends exactly where the token's time step ends |
| Catalog.GenerateTokenAcrossEdge | src/lib/server/totp-storage.service.ts:109-110 | with readings on both sides of a window edge, the token's step has ended but the countdown reports 30 seconds up to the next edge |
| PublicTotpApi.SortParams | lib/services/public-totp.api.ts:48-53 | two parameters per sort column |
| PublicTotpApi.NonEmptyEntries | lib/services/public-totp.api.ts:55-59 | only filter entries with a non-empty key and value are sent |
| PublicTotpApi.AppendSortParams | lib/services/public-totp.api.ts:48-53 | the forEach loop appends the sort parameters in column order |
| PublicTotpApi.AppendNonEmptyEntries | lib/services/public-totp.api.ts:55-59 | the for-of loop appends the non-empty filter entries in order |
| PublicTotpApi.BuildListParams | lib/services/public-totp.api.ts:37-59 | the builder yields page, size, q, the sort pairs and the filters, as `ListParams` defines them |
| PublicTotpApi.SortKeysDistinct | lib/services/public-totp.api.ts:50-51 | sort[i][field] and sort[j][order] never clash, and each names one index |
| PublicTotpApi.GetSortParams | lib/services/public-totp.api.ts:48-53 | sort[j][field] and sort[j][order] carry column j, and are absent past the last column |
| PublicTotpApi.GetHeadParams | lib/services/public-totp.api.ts:39-45 | page and size are always sent; q only for a non-empty search |
| PublicTotpApi.GetFilterEntries | lib/services/public-totp.api.ts:55-59 | issuer, label and secret are sent exactly when non-empty, and nothing else |
| PublicTotpApi.NonEmptyEntriesSnoc | lib/services/public-totp.api.ts:55-59 | one more entry with a non-empty key is kept exactly when its value is non-empty, after the earlier ones |
| PublicTotpApi.NonEmptyFilterEntries | lib/services/public-totp.api.ts:55-59 | the filter sends issuer, label and secret in that order, each only when non-empty |
| PublicTotpApi.ReportMessage | lib/services/public-totp.api.ts:149-159 | 409 gives TOTP entry already exists, another HTTP error its message, a string itself |
| PublicTotpApi.CreateHeaders | lib/services/public-totp.api.ts:10-14 | the x-turnstile-token header is attached exactly when the token is non-empty |
| PublicTotpApi.CreateOutcome | lib/services/public-totp.api.ts:8-30 | the entity exactly when success and data are set; otherwise null, reporting the thrown error or the fixed save message |
| PublicTotpApi.ListOutcome | lib/services/public-totp.api.ts:32-75 | the data on success, otherwise an empty list with total 0; only a throw is reported |
| PublicTotpApi.GlobalReport | lib/services/public-totp.api.ts:85-89 | a throw or a non-empty response error goes to the global reportError |
| PublicTotpApi.GetOutcome | lib/services/public-totp.api.ts:77-93 | the token exactly when success and data are set; otherwise null, with the global report |
| PublicTotpApi.DeleteOutcome | lib/services/public-totp.api.ts:95-110 | true exactly when the response reports success |
| PublicTotpApi.MarkOutcome | lib/services/public-totp.api.ts:113-122 | reports exactly a throw or a response error |
| ServiceTypes.ParseIntOfNumberToString | lib/server/totp/totp.manager.ts:27-28 | parseInt reads back what toString wrote, NaN included |
| TotpManager.ListTotp | lib/server/totp/totp.manager.ts:26-64 | the method computes `ListQueryOf` of the query string |
| TotpManager.ReadSortColumns | lib/server/totp/totp.manager.ts:31-44 | the while loop collects exactly the sort columns `SortColumnsOf` reads from the query |
| TotpManager.SortKeyBound | lib/server/totp/totp.manager.ts:36 | a present sort index is bounded by the parameter names, so the scan ends |
| TotpManager.CollectUsable | lib/server/totp/totp.manager.ts:31-44 | every collected sort column has a non-empty field and order, the order 'asc' when it was missing |
| TotpManager.ListQuerySortUsable | lib/server/totp/totp.manager.ts:35-49 | the resulting sort is never empty and every column is usable |
| TotpManager.DefaultNumbers | lib/server/totp/totp.manager.ts:27-28 | the defaults parse as 1 and 100 |
| TotpManager.EmptyQueryDefaults | lib/server/totp/totp.manager.ts:27-61 | no parameters give page 1, size 100, search '', empty filters and the used_at desc sort |
| TotpManager.CollectListed | lib/server/totp/totp.manager.ts:31-44 | scanning parameters that carry columns 0..n-1 recovers exactly those columns in order |
| TotpManager.GetListParamsNamed | lib/services/public-totp.api.ts:39-59 | what the list builder sends under page, size, q, issuer, label and secret |
| TotpManager.ListQueryRoundTrip | lib/server/totp/totp.manager.ts:26-61 | parsing the serialized query of APIPublicTotp.list recovers filter, pagination and search |
| TotpManager.VerifyBodyParses | lib/server/totp/totp.manager.ts:12 | the verifier body decodes to exactly secret, response and remoteip, in that order |
| TotpManager.ValidateTurnstileToken | lib/server/totp/totp.manager.ts:8-23 | true exactly when the verifier answered success true; a throw gives false |
| TotpManager.CreateTotpAsWritten | lib/server/totp/totp.manager.ts:66-71 | with the negated Promise as the guard, create is always delegated |
| TotpManager.CreateTotpAsWrittenIgnoresVerdict | lib/server/totp/totp.manager.ts:67 | a rejected token still reaches the repository |
| TotpManager.CreateTotp | lib/server/totp/totp.manager.ts:66-71 | the payload reaches the repository exactly when the verdict is true; otherwise Invalid Turnstile token |
| TotpSupabase.FilterClauses | lib/server/totp/totp.supabase.ts:59-65 | one ilike clause each for a non-empty issuer and label; the secret filter is ignored |
| TotpSupabase.RangeClause | lib/server/totp/totp.supabase.ts:74-76 | from = (page-1)*size and to = from+size-1; NaN when either is missing |
| TotpSupabase.ColumnOf | lib/server/totp/totp.supabase.ts:83-94 | issuer, label and createdAt map to their columns, anything else to used_at, in both directions |
| TotpSupabase.OrderClause | lib/server/totp/totp.supabase.ts:82-95 | ascending exactly when the order is asc or missing |
| TotpSupabase.OrderClauses | lib/server/totp/totp.supabase.ts:79-97 | one order clause per sort column |
| TotpSupabase.OrderClausesInOrder | lib/server/totp/totp.supabase.ts:81-96 | clause i orders by sort column i |
| TotpSupabase.AppendOrderClauses | lib/server/totp/totp.supabase.ts:79-97 | the forEach loop appends the order clauses |
| TotpSupabase.BuildListQuery | lib/server/totp/totp.supabase.ts:46-97 | the builder produces `ListClauses` of its arguments |
| TotpSupabase.ListClausesShape | lib/server/totp/totp.supabase.ts:46-97 | filters and search first, then one range, then the order clauses in column order; the secret filter changes nothing |
| TotpSupabase.ManagerQueryIsOrdered | lib/server/totp/totp.supabase.ts:79-97 | a query parsed by the manager always ends with an order clause |
| TotpSupabase.RangeIsPageSlice | lib/server/totp/totp.supabase.ts:74-76 | the inclusive range holds exactly size rows, the same page the catalog's slice gives |
| TotpSupabase.RangeRowsIsSlice | lib/server/totp/totp.supabase.ts:76 | an inclusive row range is the half-open slice one further |
| TotpSupabase.TotalOf | lib/server/totp/totp.supabase.ts:111 | the count, or 0 when absent |
| TotpSupabase.ListResult | lib/server/totp/totp.supabase.ts:99-112 | an error becomes Failed to list TOTP entries; otherwise every row is mapped to an entity, with the total |
| TotpSupabase.InsertOf | lib/server/totp/totp.supabase.ts:16-27 | the payload secret when non-empty, else the generated one; metadata type public; the owner |
| TotpSupabase.CreateResult | lib/server/totp/totp.supabase.ts:37-43 | any insert error becomes Failed to create TOTP entry; a row becomes its entity |
| TotpSupabase.CreatedEntity | lib/server/totp/totp.supabase.ts:13-44 | an insert that succeeds returns the payload's issuer and label with the stored secret |
| TotpSupabase.DeleteClauses | lib/server/totp/totp.supabase.ts:138-146 | match by id, and by owner exactly when one is known |
| TotpSupabase.DeleteResult | lib/server/totp/totp.supabase.ts:148-155 | true exactly when the delete reports no error |
| TotpSupabase.RandomIndex | lib/server/totp/totp.supabase.ts:183 | `Math.floor(r * n)` for 0 <= r < 1 is an index below n, and it is the floor of r * n |
| TotpSupabase.GenerateSecret | lib/server/totp/totp.supabase.ts:178-186 | 16 characters, each the alphabet letter at floor(32 r), all from A-Z2-7, and decodable |
| Url.ParseQueryOfSerialize | lib/services/public-totp.api.ts:62 | parsing the serialized form parameters gives the same ordered pairs |
| Url.FormDecodeOfUriComponent | lib/server/totp/totp.manager.ts:12 | form-decoding what encodeURIComponent wrote gives the original text |
| Strings.FirstField | app/api/totp/route.ts:203 | the text before the first comma |
| FeaturesApi.PageArgument | src/lib/features/otp/api.ts:44 | page defaults to 1 |
| FeaturesApi.LimitArgument | src/lib/features/otp/api.ts:45 | limit defaults to 10 |
| FeaturesApi.Optional | src/lib/features/otp/api.ts:56-66 | an optional parameter is sent exactly when it is non-empty |
| FeaturesApi.BuildListEntriesParams | src/lib/features/otp/api.ts:52-66 | the appends yield `ListEntriesParams` of the arguments |
| FeaturesApi.GetListEntriesParams | src/lib/features/otp/api.ts:52-66 | page and limit are always sent; search, sortBy and sortOrder exactly when non-empty |
| FeaturesApi.ToastMessage | src/lib/features/otp/api.ts:136-146 | the same message choice as APIPublicTotp.reportError |
| FeaturesApi.ResponseToast | src/lib/features/otp/api.ts:92-97 | a throw toasts its message; a response toasts its own error exactly when it is non-empty |
| FeaturesApi.AddEntryOutcome | src/lib/features/otp/api.ts:18-41 | the entity exactly when success and data are set; a response error toasts Failed to save TOTP entry |
| FeaturesApi.ListEntriesOutcome | src/lib/features/otp/api.ts:43-82 | the data on success, an empty list with total 0 otherwise; only a throw is toasted |
| FeaturesApi.SyncEntryOutcome | src/lib/features/otp/api.ts:84-100 | the data exactly when success and data are set; otherwise null with the response toast |
| FeaturesApi.SuccessOutcome | src/lib/features/otp/api.ts:102-117 | true exactly when the response reports success |
| PublicTotpRoute.SearchOf | src/routes/api/public/totp/+server.ts:30 | an empty search becomes undefined |
| PublicTotpRoute.SortFieldOf | src/routes/api/public/totp/+server.ts:33-37 | sortBy is kept exactly when it is issuer, label or createdAt |
| PublicTotpRoute.SortOrderOf | src/routes/api/public/totp/+server.ts:40-43 | sortOrder is kept exactly when it is asc or desc |
| PublicTotpRoute.DefaultNumbers | src/routes/api/public/totp/+server.ts:28-29 | the defaults parse as 1 and 10 |
| PublicTotpRoute.ParseListRequest | src/routes/api/public/totp/+server.ts:28-43 | missing page and limit default to 1 and 10, and a search is never empty |
| PublicTotpRoute.ParseListRequestOf | src/routes/api/public/totp/+server.ts:28-43 | the parsed request is determined by the values under the five names |
| PublicTotpRoute.ListRequestRoundTrip | src/routes/api/public/totp/+server.ts:28-46 | parsing what listEntries serializes recovers page, limit and search, and sortBy and sortOrder when they are valid |
| PublicTotpRoute.ListHandler | src/routes/api/public/totp/+server.ts:26-60 | the service result with 200, or 500 Failed to list TOTP entries |
| PublicTotpRoute.ValidateTurnstileToken | src/routes/api/public/totp/+server.ts:8-24 | true exactly when success is the boolean true; a throw gives false |
| PublicTotpRoute.PostHandler | src/routes/api/public/totp/+server.ts:62-102 | no token gives 400 with no call; a failed check gives 403 with no add; add is called only after the check passes, with type public |
| PublicTotpRoute.PostVerifiesWithToken | src/routes/api/public/totp/+server.ts:12 | the verifier receives the secret, the token and the client address |
| PublicTotpRoute.UpdatedMessageInjective | src/routes/api/public/totp/+server.ts:123 | the success message determines the number of ids |
| PublicTotpRoute.PatchHandler | src/routes/api/public/totp/+server.ts:105-138 | missing, non-array or empty ids give 400 with no update; success exactly when the update returns true |
| AppTotpRoute.TokenOf | app/api/totp/route.ts:201 | a missing token header becomes '' |
| AppTotpRoute.ClientIp | app/api/totp/route.ts:202-203 | 127.0.0.1 without the header; otherwise a trimmed entry with no comma |
| AppTotpRoute.ClientIpOfList | app/api/totp/route.ts:203 | the first address of a proxy list is the one taken |
| AppTotpRoute.ClientIpOfSingle | app/api/totp/route.ts:203 | a single entry is trimmed |
| AppTotpRoute.ListHandler | app/api/totp/route.ts:167-190 | the manager's list with 200, or 500 Failed to list TOTP entries |
| AppTotpRoute.FailureReply | app/api/totp/route.ts:211-229 | 409 with the conflict text exactly for the duplicate message, 500 for anything else |
| AppTotpRoute.PostHandler | app/api/totp/route.ts:192-230 | the token and address are sent to the verifier, but a JSON payload always reaches create, whatever the verdict; 200 with the entry on success, else the catch's reply |
| AppTotpRoute.PostHandlerIgnoresVerdict | app/api/totp/route.ts:205 | a token the verifier rejects is stored, and the reply is 200 with the new entry |
| AppTotpRoute.PostHandlerCorrected | app/api/totp/route.ts:192-230 | with the verdict awaited, the payload reaches create exactly when the verifier accepts; a rejection is a 500 |
| AppTotpRoute.SupabaseCreateNeverConflicts | app/api/totp/route.ts:215-228 | a Supabase insert error never produces the 409 reply |
| AppTotpRoute.PatchHandler | app/api/totp/route.ts:233-263 | invalid ids give 400 and markTotp is not called; success reports the number of ids |
| QrUploader.PathText | components/totp/form/qr-code-uploader.tsx:29 | the path of the parsed URL holds no ? or # |
| QrUploader.QueryText | components/totp/form/qr-code-uploader.tsx:29 | the query of the parsed URL holds no # |
| QrUploader.ParseTotpUri | components/totp/form/qr-code-uploader.tsx:28-37 | text is rejected exactly when it does not start with otpauth://totp/ |
| QrUploader.HandleImage | components/totp/form/qr-code-uploader.tsx:20-44 | a decoder failure gives the failure alert; decoded text is parsed |
| QrUploader.ParseUriQuery | components/totp/form/qr-code-uploader.tsx:30-31 | the key URI's query reads back as the secret and the issuer |
| QrUploader.MissingParametersAreEmpty | components/totp/form/qr-code-uploader.tsx:30-32 | without a query, secret and issuer are '' and the label is the decoded path |
| QrUploader.ParseOfTotpUri | components/totp/form/qr-code-uploader.tsx:28-34 | parsing the key URI of (secret, label, issuer) gives (secret, issuer, label) for a Base32 secret and a label other than . and .. |
| QrUploader.FirstImage | components/totp/form/qr-code-uploader.tsx:50-58 | the loop picks the first item that is an image with a file, or none when there is no such item |
| OtpServices.EnrollTotp | src/lib/features/otp/otp.service.ts:26-51 | given or generated secret (decodable to the random bytes), default issuer and label, the key URI of exactly those values, a separate id |
| OtpServices.EnrollmentUriScansBack | src/lib/features/otp/otp.service.ts:36 | an enrollment's key URI scans back to its secret, issuer and label |
| OtpServices.DefaultQrCodeScansBack | lib/services/otp.service.ts:13-16 | with label and issuer left out the picture is of the URI with both empty, which reads back with the secret |
| OtpServices.DecodeQrCode | src/lib/features/otp/otp.service.ts:69-76 | decoded text passes through; an error is rethrown as the fixed prefix followed by the original error |
| TotpListHook.AfterFetch | components/totp/hooks/get-totp.ts:31-47 | nothing changes while loading; an answer replaces filter, page, search, entries and total; a failure keeps them; loading ends false |
| TotpListHook.AfterAdd | components/totp/hooks/get-totp.ts:49-51 | the entry goes in front, total grows by one, the rest is unchanged |
| TotpListHook.FetchIdempotent | components/totp/hooks/get-totp.ts:31-47 | fetching twice with the same answer is the same as fetching once |
| TotpListHook.FailedListClears | components/totp/hooks/get-totp.ts:35-41 | with the real list client a failed request clears the table instead of keeping it |
| TotpListHook.AddKeepsGap | components/totp/hooks/get-totp.ts:49-51 | an addition keeps the difference between entries shown and total |
| TotpListHook.ListHook.constructor | components/totp/hooks/get-totp.ts:15-29 | page 1 of size 5, empty filter and search, no entries, total 0, not loading |
| TotpListHook.ListHook.OnFetch | components/totp/hooks/get-totp.ts:31-47 | the new state is the fetch transition of the old one |
| TotpListHook.ListHook.AddTotp | components/totp/hooks/get-totp.ts:49-51 | the new state is the addition transition of the old one |

## Left out

- HMAC-SHA1 is a parameter, so the published RFC 6238 test vectors are not checked.
- The QR raster is left out. `generate_qr_code_base64` and `decode_qr_code_base64` are function parameters or outcomes; only the text they carry is modelled.
- Clocks and randomness are inputs: `Date.now()`, `getrandom`, `Math.random` ids and characters. The `generatedAt` dates of the token results are not modelled.
- Totp.Counter: the f64-to-u64 cast of `Date.now()` is modelled for non-negative whole milliseconds, saturating at 2^64-1; fractional or negative clock values are not modelled.
- ServiceTypes.ParseIntOfNumberToString: numbers are modelled as integers, so fractions, infinities and values of 1e21 or more are not. For those, `parseInt(String(n))` does not give n back: `"1.5"` reads as 1 and `"1e+21"` as 1.
- Catalog.TextCompare: `localeCompare` is modelled as ordinal order on characters; locale collation is not modelled.
- Catalog.NewEntry: `createdAt` is an integer timestamp, not an ISO string parsed back with `new Date`.
- TotpEntity.FromRow: `createdAt` is carried as an integer; the ISO formatting of `toISOString` is not modelled.
- Lower-casing (`toLowerCase`) covers ASCII letters only.
- Network and storage I/O are modelled only through their outcomes: axios, Supabase, Prisma, the Turnstile HTTP call and `fetchUserId`. The owner id is a parameter.
- Supabase `get` and `mark` are left out. They are one call each, and `mark`'s result reaches the handlers only as success or a throw, which `AppTotpRoute.PatchHandler` takes as a parameter.
- `markTotp` only forwards its id list to the repository. It is not a separate member; `AppTotpRoute.PatchHandler` records the list handed to it.
- `APIPublicTotp.register` calls an external service and is left out.
- Url.ParseQuery: form decoding of a malformed escape or invalid UTF-8 fails instead of producing U+FFFD, so the parser is stated only for well-formed input.
- QrUploader.PathText: the WHATWG URL parser is modelled for the path, query and fragment split and for `.`/`..` segments. Its other normalisation (tab and newline stripping, re-escaping of characters outside the path set, backslashes) is not modelled.
- The two `generateId()` calls of `enrollTOTP` are independent inputs. The label's id is therefore not the entry's id, as in the source.
- `once()` in src/lib/features/otp/otp.service.ts never runs `init`, because `isInit` starts false. It is left out as dead code, as is the commented-out block of app/api/totp/route.ts.
- src/lib/server/totp/totp-storage.service.ts only delegates to the repository and is left out.
- `handleQRUpload` takes the first selected file. It is not modelled; the paste path's selection is `QrUploader.FirstImage`.
- TotpListHook.OnFetch: React's asynchronous `setTotps` and the intermediate loading state seen by a concurrent render are not modelled. Only the final state is stated.
- The pagination `sort` the hook starts with is `undefined` in the source and is modelled as an empty list.
- Concurrency between requests is not modelled.

## Findings

| source | as written | input that shows it | evidently intended | confidence | as-written member | corrected member |
|---|---|---|---|---|---|---|
| lib/server/totp/totp.manager.ts:67 | `!this.validateTurnstileToken(...)` negates the Promise the async check returns. A Promise is always truthy, so the guard never throws and the verdict is ignored | any payload with a token the verifier rejects: `createTotp` still calls `repository.create` | await the verdict and throw `Invalid Turnstile token` when it is false | high; not executed | TotpManager.CreateTotpAsWrittenIgnoresVerdict | TotpManager.CreateTotp |
| app/api/totp/route.ts:205 | the live POST route awaits `createTotp` as written, whose guard never throws | a JSON payload with a token the verifier rejects and a repository that accepts it: the route stores it and replies 200 with the entry | reply 500 with `Failed to add TOTP entry` and store nothing | high; not executed | AppTotpRoute.PostHandlerIgnoresVerdict | AppTotpRoute.PostHandlerCorrected |
