# Z-Shield API: verified models

This project models the parts of the Z-Shield API that are small protocols, codecs or state machines, and proves
what they keep over every input, every run and every interleaving. Each module follows one part of the program:

- `Replay`, `Authenticate`, `Acceptance`, `AuthSafety`, `ReplayWindow`, `ReplayExact`, `SignedOnce`, `RateBound`,
  `RateExact`: authentication of agent requests. Handlers are interleaved at their awaits over one cache with expiring keys.
- `Credentials`, `Rotation`: the table of agent keys, and key rotation as a two-party protocol over a network that
  loses, delays and reorders messages.
- `Protocol`: the canonical strings that both sides sign.
- `ContentType`, `Upload`, `Headerless`, `Base32`, `Totp`, `Licence`: the byte and text codecs.
- `Bans`, `BanLaws`, `Commands`, `Sessions`, `Permissions`: state machines inside SQL transactions. Where a
  transaction takes no lock between reading and writing, its overlap with another one is modelled as well.
- `Db`, `Policies`, `TenantIsolation`: row-level policies over pooled connections, and non-interference between tenants.
- `Heatmap`: counters in expiring hashes, summed over a sliding window.
- `Text`: JavaScript string and number functions shared by the codecs.

Code that changes state is a class whose methods are proved against functions on values; the theorems about runs are
lemmas about those functions. `dafny verify dfyconfig.toml` checks everything.

## Assumptions

- HMAC and SHA are arbitrary functions. Where a lemma needs 64 hexadecimal digits, it says so (`MacIsHex`,
  `HmacIsHex`). The constant-time comparison, which compares SHA-256 digests, is equality. The HMAC-SHA1 digest of
  TOTP is any 20 bytes, and `codeAt` is the code of the secret at a step.
- Clocks, delays, faults, random identifiers and the choice among rows with equal `created_at` are parameters. A
  key of the cache is present at its deadline or not according to `edge`; both are covered. The cache, the database
  and the process share one clock.
- The cache loses a key only by expiry: it neither evicts under memory pressure nor restarts empty.
- Each SQL transaction is one atomic step, except in the lemmas about overlapping requests. A statement that breaks a
  unique index aborts its transaction.
- `Number` is modelled on decimal digits with an optional sign, `toUpperCase` on ASCII letters.

## What the proofs found

- The startup check `ttl >= 2 * skew` (`apps/api/src/config/env.ts:67`) does not imply replay protection: the clock is
  floored to seconds and the claim runs after the check. The exact condition is in `ReplaySafeExactly`; the shipped
  defaults meet it.
- An agent that never loses its accepted key can still be unable to finish a rotation (`CandidateCanBeStranded`);
  which handshakes commit is in `HandshakeCommitsExactly`.
- REVOKED is not final as a mark: promoting a pending successor overwrites it with SUPERSEDED
  (`apps/api/src/agent-gateway/credentials.ts:178-183`), exactly when `RevokedMarkIsLostExactly` says. The key stays
  unusable (`DeadKeysStayDead`).
- Replacing every key of a server does not end a rotation that is under way: its key is inserted afterwards and stays
  usable beside the new one (`RotationOutlivesReplacement`, exact condition in `ReplacementHoldsExactly`).
- A quoted boundary with white space at either end is not the delimiter that the scan looks for, although section
  5.1.1 of RFC 2046 lets a boundary begin with a space (`LeadingSpaceIsLost`, exact condition in
  `QuotedBoundaryExactly`).
- The multipart scan runs past parts without header lines. An image sent alone that way is never returned, whatever it
  is (`HeaderlessImageIsNotReturned`); which images are returned is in `FirstImageReturnedExactly`. Of two such parts
  in a row only the first is run past (`SecondOfTwoIsSeen`).
- Reviews select the pending ban without a lock. Two overlapping ones report twice, and of two confirmations the later
  lifts the ban if its lifting UPDATE runs after the first has committed (`OverlappingReviews`).
- Logins read and write the failure count in separate statements. Failures are lost exactly when one login reads between
  the two statements of another (`RecordedFailures`); of a batch that reads before it writes, a single one is recorded
  (`OverlappingLogins`).
- The comment at `apps/api/src/api/routes.ts:531-533` claims that a locked row keeps two simultaneous demotions from
  removing every OWNER. Only the target row is locked, so it does not (`OverlappingRequests`, `MutualDemotion`).
- Public appeals write into a tenant's rows through the platform policy (`AdminWritesInterfere`); what administrators
  commit to its rows is all that a tenant can feel of others (`OnlyPatchesAreFelt`).

## Model

| member | source | states |
|---|---|---|
| ReplayExact.ReplaySafeExactly | apps/api/src/agent-gateway/authenticate.ts:159-183 | Replay protection over every interleaving of any number of handlers holds if and only if 2000*skew + (1000 - grain) + delay < 1000*ttl + edge; otherwise some run accepts one captured request twice |
| AuthSafety.AtMostOnce | apps/api/src/agent-gateway/authenticate.ts:159-183 | When the lifetime covers the clock window, no (agent, key, nonce, timestamp) is accepted twice in any run, whatever arrives, fails or is revoked meanwhile |
| AuthSafety.NextKeepsClaims | apps/api/src/agent-gateway/authenticate.ts:167-183 | Every event keeps the invariant behind it: each claimed nonce is held in the cache until its lifetime ends, and two claims of one nonce lie a lifetime apart |
| AuthSafety.AcceptedIsGenuine | apps/api/src/agent-gateway/authenticate.ts:139-209 | In every run an accepted request has valid headers, an HMAC made with a usable key of the agent and server it names, and a timestamp inside the clock window |
| SignedOnce.AcceptedIsTheSignedRequest | apps/api/src/agent-gateway/authenticate.ts:185-209 | If accepted signatures were made by the holder of the key, an accepted request is one that holder signed: the same method up to its case, the same url cut at its first question mark, the same identifiers, timestamp, nonce and body hash, for the agent and the server of the key |
| SignedOnce.SignedRequestIsAcceptedOnce | apps/api/src/agent-gateway/authenticate.ts:159-209 | Under the covering lifetime no signed request is accepted by two handlers, in any interleaving |
| AuthSafety.ClaimBounds | apps/api/src/agent-gateway/authenticate.ts:159-170 | The earliest and latest instant at which a request with a given timestamp can claim its nonce |
| ReplayWindow.RefusedOnlyIfUsed | apps/api/src/agent-gateway/authenticate.ts:167-183 | A request is refused as a replay only if a request with the same agent, key and nonce claimed it less than a lifetime before; other agents and other keys never block it |
| ReplayExact.ReplayRun | apps/api/src/agent-gateway/authenticate.ts:159-183 | The run that accepts a captured request twice, without any outage, whenever the lifetime falls short |
| ReplayExact.StartupCheckIsTooWeak | apps/api/src/config/env.ts:65-75 | With the millisecond clock, the smallest lifetime that the startup check admits is too short |
| ReplayExact.StartupCheckInWholeSeconds | apps/api/src/config/env.ts:65-75 | The startup check suffices if time moves in whole seconds and a key is still present at its deadline |
| ReplayExact.StartupSettings | apps/api/src/config/env.ts:50-75 | Of the settings that the startup check admits, exactly those whose lifetime exceeds twice the skew are safe with a millisecond clock, no delay and keys gone at their deadline |
| ReplayExact.ShippedSettings | apps/api/src/config/env.ts:61-63 | With the default 300 s and 900 s, replay protection holds exactly while a claim runs at most 299000 ms after its clock check |
| Acceptance.AcceptedExactly | apps/api/src/agent-gateway/authenticate.ts:98-209 | One call accepts a request if and only if its headers are well-formed, its agent is within its quota, its key is usable and bound to its server, it is in time, its nonce is free and the cache answers, and its signature is the HMAC under the secret of that key of the ten lines, with path and query cut from the url; the cache then gains the counter and the nonce |
| Acceptance.RefusedExactly | apps/api/src/agent-gateway/authenticate.ts:131-206 | Otherwise the first condition that fails, in the order of the pipeline, decides the status, the code and the retry delay |
| Acceptance.ValidExactly | apps/api/src/agent-gateway/authenticate.ts:100-128 | The headers are accepted if and only if they present the fields, character by character, and then as those fields |
| Acceptance.InvalidExactly | apps/api/src/agent-gateway/authenticate.ts:111-128 | Otherwise missing or malformed signed headers, a bad timestamp and a bad protocol version are refused, in this order |
| Acceptance.UrlIsCut | apps/api/src/agent-gateway/authenticate.ts:186-190 | Path and query are what comes before and after the first question mark, and together the whole url |
| Acceptance.CutIsUnique | apps/api/src/agent-gateway/authenticate.ts:186-190 | There is only one such cut |
| Authenticate.AgentAuthenticator.ReadHeaders | apps/api/src/agent-gateway/authenticate.ts:61-128 | The header checks in their order, with the status and the code of each refusal, and the two optional headers with their defaults; a repeated header counts as absent |
| Authenticate.AgentAuthenticator.ClaimAndVerify | apps/api/src/agent-gateway/authenticate.ts:167-209 | The nonce, then the signature, as the last two stretches of the pipeline |
| Authenticate.AgentAuthenticator.AuthenticateRequest | apps/api/src/agent-gateway/authenticate.ts:98-209 | The whole call answers and leaves the cache as the six stretches of the pipeline run in a row, which are the steps that the interleaved theorems quantify over |
| Replay.ReplayGuard.ClaimFor | apps/api/src/agent-gateway/replay.ts:52-62 | One atomic SET NX EX on agent:nonce:agent:key:nonce: fresh once per lifetime; any lost command or reply is reported as unavailable (fails closed) |
| Replay.AgentRateLimiter.ConsumeFor | apps/api/src/agent-gateway/replay.ts:81-103 | One counter per agent and minute on agent:rate:agent:minute; allowed up to the quota, with what is left of it and the least whole number of seconds that leads into the next minute; fails open |
| Replay.Redis.SetIfAbsent | apps/api/src/agent-gateway/replay.ts:55-58 | SET key EX NX on keys that expire |
| Replay.Redis.Increment | apps/api/src/agent-gateway/replay.ts:86-91 | INCR and EXPIRE in one block on keys that expire |
| Text.CodePoints | apps/api/src/agent-gateway/authenticate.ts:70-72 | The character classes of the header formats, and the white space that trimming and removing blanks take out, by code point |
| Text.JsNumberExactly | apps/api/src/agent-gateway/authenticate.ts:120-128 | A number is decimal digits, possibly behind one sign, and has their value |
| Text.OnlyNumbersAreRead | apps/api/src/agent-gateway/authenticate.ts:120-128 | Nothing else is read as a number |
| Text.NatValueStep | apps/api/src/agent-gateway/authenticate.ts:120-128 | Digits are read in base ten |
| Text.NoLeadingZero | apps/api/src/agent-gateway/protocol.ts:85 | A number is printed without leading zeros |
| Text.JoinSplit | apps/api/src/api/routes.ts:3213 | Joining undoes splitting, and no piece holds the separator |
| Replay.NonceKeyInjective | apps/api/src/agent-gateway/replay.ts:44-53 | Distinct agents, keys or nonces never share a cache key |
| Replay.RateKeyInjective | apps/api/src/agent-gateway/replay.ts:82-83 | Distinct agents or minutes never share a counter |
| Replay.NonceKeyIsNoRateKey | apps/api/src/agent-gateway/replay.ts:53-83 | No nonce key is a counter key, whatever the identifiers |
| RateExact.RateSafeExactly | apps/api/src/agent-gateway/replay.ts:81-98 | The limit of perMinute requests of an agent per clock minute holds in every run if and only if 60000 - grain + delay < 120000 + edge, that is, if no counter can expire inside its minute; otherwise some run lets one more through |
| RateBound.PerMinute | apps/api/src/agent-gateway/replay.ts:81-98 | While no counter can expire inside its minute, an answering limiter lets at most perMinute requests of an agent through in each clock minute of every run |
| RateBound.AnyInterval | apps/api/src/agent-gateway/replay.ts:81-98 | Hence at most (ceil(L/60000) + 1) * perMinute in any interval of L milliseconds |
| RateBound.LimiterKeepsCounter | apps/api/src/agent-gateway/replay.ts:85-95 | The expiry never resets a counter while a request of its minute can still be counted |
| RateExact.OneTooMany | apps/api/src/agent-gateway/replay.ts:85-95 | The run that exceeds the limit when it can |
| Protocol.RequestSplits | apps/api/src/agent-gateway/protocol.ts:76-89 | Splitting a canonical request at line feeds recovers its ten lines in order: ZSHIELD-AGENT-V1, the method in capitals, path, query, agent, server, key, timestamp, nonce and body hash |
| Protocol.ResponseSplits | apps/api/src/agent-gateway/protocol.ts:100-109 | Splitting a canonical response at line feeds recovers its six lines, the first of them ZSHIELD-PLATFORM-V1 |
| Protocol.UpperCodes | apps/api/src/agent-gateway/protocol.ts:79 | The method is signed in ASCII capitals |
| Protocol.RequestInjective | apps/api/src/agent-gateway/protocol.ts:76-89 | Two canonical requests are equal if and only if the requests are, up to the case of the method |
| Protocol.ResponseInjective | apps/api/src/agent-gateway/protocol.ts:100-109 | Equal canonical responses mean equal responses |
| Protocol.RequestIsNoResponse | apps/api/src/agent-gateway/protocol.ts:76-109 | No canonical request equals a canonical response, whatever the fields hold |
| Protocol.LineFeedCollision | apps/api/src/agent-gateway/protocol.ts:76-89 | Why the fields must be free of line feeds: moving one from the path to the query keeps the string |
| Rotation.AgentNeverLockedOut | apps/api/src/agent-gateway/credentials.ts:4-8 | With messages lost, delayed and reordered and no administrator, the agent holds in every reachable state and at any time a key that resolve accepts, together with exactly the secret stored in its row |
| Rotation.SwitchesAfterPromotion | apps/api/src/agent-gateway/credentials.ts:4-8 | In every reachable state the agent has given up an old key only for one that the platform had promoted |
| Rotation.HandshakeAnswered | apps/api/src/agent-gateway/service.ts:157-170 | A handshake is answered unless it is for a pending key whose promotion aborts, and the answer makes a candidate the key of the agent |
| Rotation.StepKeeps | apps/api/src/agent-gateway/service.ts:703-730 | Every step of either party keeps the invariant: replies in flight carry the secrets of untouched pending keys, the relied-on key fits its row, and no received key supersedes it |
| Rotation.ShakeKeeps | apps/api/src/agent-gateway/service.ts:159-163 | A handshake with a pending key keeps the invariant even when the row was read long before |
| Rotation.CandidateCanBeStranded | apps/api/src/agent-gateway/credentials.ts:163-192 | Accepted is not promotable: two rotation replies around one handshake can leave the agent with a candidate whose promotion always aborts |
| Rotation.HandshakeCommitsExactly | apps/api/src/agent-gateway/credentials.ts:163-192 | In every reachable state the handshake of a pending key commits if and only if its predecessor is the ACTIVE key of the server |
| Rotation.SecondPromotionAborts | apps/api/src/agent-gateway/credentials.ts:174-190 | Two pending successors of one key: promoting one makes the promotion of the other violate the unique index |
| Credentials.CredentialStore.ResolveKey | apps/api/src/agent-gateway/credentials.ts:42-88 | Finds exactly the row of that agent and key that is ACTIVE or PENDING_ROTATION and has not reached its expiry |
| Credentials.CredentialStore.Insert | apps/api/src/agent-gateway/credentials.ts:110-142 | Adds the row if its identifier is new and, for an ACTIVE row, no other key of the server is ACTIVE; otherwise it aborts and changes nothing |
| Credentials.CredentialStore.BeginRotation | apps/api/src/agent-gateway/credentials.ts:148-156 | Adds a pending successor with the new secret, for the server and agent of the old key and naming it, under an identifier not yet taken; every other row stays |
| Credentials.CredentialStore.Promote | apps/api/src/agent-gateway/credentials.ts:163-192 | Commits for a pending key if and only if no key of its server but its predecessor is ACTIVE; then the predecessor is retired and the key activated and nothing else changes, otherwise nothing at all |
| Credentials.CredentialStore.Revoke | apps/api/src/agent-gateway/credentials.ts:198-212 | Revokes that key and touches no other row |
| Credentials.CredentialStore.RevokeAll | apps/api/src/api/routes.ts:988-996 | Revokes every key of the server and touches no other row |
| Credentials.PromotionExact | apps/api/src/agent-gateway/credentials.ts:163-192 | A promotion commits if and only if no third key of the server is ACTIVE; then ACTIVE moves to the key from its direct predecessor and nothing else changes |
| Credentials.DeadKeysStayDead | apps/api/src/agent-gateway/credentials.ts:163-212 | Over every run, revocations between authentication and commit included, a server has at most one ACTIVE key and a SUPERSEDED or REVOKED key is never usable again |
| Credentials.RevokedMarkIsLostExactly | apps/api/src/agent-gateway/credentials.ts:177-184 | A step overwrites the mark REVOKED, with SUPERSEDED, if and only if it promotes a pending successor of the key while no other key of the server is ACTIVE |
| Credentials.RevokedMarkIsLost | apps/api/src/agent-gateway/credentials.ts:177-184 | A run in which an administrator revokes a key and the handshake of its successor erases the mark |
| Credentials.RotationStep | apps/api/src/agent-gateway/credentials.ts:148-192 | Without administrators a transaction moves ACTIVE to a direct successor or not at all |
| Credentials.RotationKeepsOneActive | apps/api/src/agent-gateway/credentials.ts:148-192 | Without administrators exactly one key of the server is ACTIVE after any run of rotations and handshakes |
| Credentials.ReplacementHoldsExactly | apps/api/src/api/routes.ts:988-996 | After every key of a server has been revoked, no key of it is usable at any point of any further run if and only if no step issues a usable key for it or inserts the successor of a row read earlier |
| Credentials.RevivedExactly | apps/api/src/agent-gateway/credentials.ts:148-156 | On a server without a usable key, a step brings one up if and only if it inserts it under a new identifier; no promotion, revocation or step on another server does |
| Credentials.RotationOutlivesReplacement | apps/api/src/api/routes.ts:984-1003 | A rotation authenticated before its server got a new key goes through afterwards: its key is accepted beside the new one whatever the clock says, and its handshake aborts |
| Upload.ParseUpload | apps/api/src/evidence/upload.ts:41-68 | With the boundary that the content type gives, the scanning loop returns what the scan of the body from its first delimiter finds; without one the body itself is the image; a body that is empty or over the cap gives nothing |
| ContentType.QuotedBoundaryExactly | apps/api/src/evidence/upload.ts:43-47 | A non-empty boundary sent in quotes is read back as its bytes if and only if it has no white space at either end, whatever follows it in the header |
| ContentType.ValueExactly | apps/api/src/evidence/upload.ts:45-47 | Behind the parameter name a value in closed quotes is read, and otherwise what comes before the next semicolon |
| ContentType.BoundaryExactly | apps/api/src/evidence/upload.ts:43-47 | The boundary is the trimmed value of the first match in a header that mentions a multipart form, in any case of letters; without either there is none |
| ContentType.Utf8Exactly | apps/api/src/evidence/upload.ts:47 | Each character of a boundary becomes its shortest UTF-8 bytes, which spell its code point |
| ContentType.FoldCodes | apps/api/src/evidence/upload.ts:45-46 | Case is ignored for ASCII letters only |
| ContentType.Utf8Step | apps/api/src/evidence/upload.ts:47 | A boundary is encoded character by character |
| ContentType.LeadingSpaceIsLost | apps/api/src/evidence/upload.ts:43-47 | A boundary that begins with a space, in quotes in the usual header, is not read back |
| ContentType.PlainBoundaryExactly | apps/api/src/evidence/upload.ts:43-47 | The same for a boundary without quotes, which ends at the next semicolon |
| Upload.FormUpload | apps/api/src/evidence/upload.ts:41-68 | From the header to the image: a well-formed body sent with its boundary in quotes yields exactly the bytes of its first part that is an image within the limit |
| Upload.ScanMultipart | apps/api/src/evidence/upload.ts:48-62 | The loop terminates and finds the first image from the first delimiter on |
| Upload.TakeTurn | apps/api/src/evidence/upload.ts:50-60 | One turn of the loop with its three ways out and clamped subarrays |
| Upload.RawBody | apps/api/src/evidence/upload.ts:42-67 | A body without a boundary is the image itself, and one of more than 1572864 + 4096 bytes is refused |
| Upload.WireBytes | apps/api/src/evidence/upload.ts:18-55 | The scan looks for CR LF CR LF and for two dashes behind a delimiter, and takes images of up to a mebibyte and a half |
| Upload.IndexOfIsFirst | apps/api/src/evidence/upload.ts:48-55 | Buffer.indexOf finds the first occurrence not before the offset, or reports that there is none |
| Upload.TurnExactly | apps/api/src/evidence/upload.ts:50-60 | One turn on any bytes: two dashes, a header without end or a part without end stop it; otherwise the data run from behind the first blank line to two bytes before the next delimiter |
| Upload.ImageExactly | apps/api/src/evidence/upload.ts:27-36 | An image is a JPEG or PNG signature with a byte behind it and at most 1572864 bytes in all |
| Upload.WellFormedBody | apps/api/src/evidence/upload.ts:41-68 | A body of section 5.1.1 of RFC 2046 built from any list of parts yields exactly the bytes of its first part that is an image within the limit, and null if there is none |
| Upload.ResultIsAnImageInTheBody | apps/api/src/evidence/upload.ts:41-68 | On arbitrary bytes, any result is a contiguous slice of the body with a JPEG or PNG signature, within the limit |
| Headerless.ParseSections | apps/api/src/evidence/upload.ts:41-68 | For any list of parts with or without header lines, the parser returns the first image among the bytes its scan takes for data: its own data for a part with a header, what follows the first blank line for one without, and the next part where there is no such line |
| Headerless.FirstImageReturnedExactly | apps/api/src/evidence/upload.ts:48-61 | For any list of parts, an image whose bytes no other part shows is returned if and only if its part has a header or comes right behind one that the scan runs past, and no earlier part shows an image |
| Headerless.HeaderlessImageIsNotReturned | apps/api/src/evidence/upload.ts:52-59 | For all data and any boundary: the only image of a body, sent without header lines, is never returned; any result is strictly shorter |
| Headerless.SecondOfTwoIsSeen | apps/api/src/evidence/upload.ts:52-60 | Of two headerless parts in a row the first is run past and the second is seen |
| Totp.EncodeSecret | apps/api/src/auth/totp.ts:27-45 | The text is the base32 encoding of the bytes, zero padded in its last symbol, for every length, although the accumulator is never masked |
| Totp.DecodeSecret | apps/api/src/auth/totp.ts:47-65 | Refuses exactly the texts with a character outside the alphabet after normalisation; otherwise returns the whole bytes that the symbols spell |
| Totp.AlphabetExactly | apps/api/src/auth/totp.ts:25 | The thirty-two symbols are the capital letters and the digits from 2 to 7, in the order of section 6 of RFC 4648 |
| Totp.NormaliseExactly | apps/api/src/auth/totp.ts:48 | A secret is read in any case, padded at its end and with white space anywhere before the padding |
| Totp.SpacesGo | apps/api/src/auth/totp.ts:48 | White space is taken out of a secret or a code piece by piece |
| Totp.SpaceGoes | apps/api/src/auth/totp.ts:48 | Of single characters exactly the white space goes |
| Totp.DecodeEncode | apps/api/src/auth/totp.ts:27-65 | Any decoding of any encoding of a byte string is that byte string |
| Totp.GenerateThenDecode | apps/api/src/auth/totp.ts:27-65 | Running the decoder on the output of the encoder returns the random bytes |
| Base32.LowBit | apps/api/src/auth/totp.ts:38-59 | The bits that the other rows speak of are those of the number, most significant first |
| Base32.LowAnd | apps/api/src/auth/totp.ts:38-59 | Masking works bit by bit |
| Base32.ShiftsExactly | apps/api/src/auth/totp.ts:35-59 | Shifting right divides by a power of two, shifting left multiplies and wraps at 32 bits |
| Base32.Append | apps/api/src/auth/totp.ts:35-57 | Shifting a 32-bit accumulator left and or-ing new bits in never loses a pending bit, although higher bits wrap away |
| Base32.Take | apps/api/src/auth/totp.ts:38-59 | Shifting right and masking reads exactly the oldest pending bits |
| Totp.Truncate | apps/api/src/auth/totp.ts:74-79 | The dynamic truncation of section 5.3 of RFC 4226: in bounds for every digest, and the 31-bit big-endian number at the offset |
| Totp.BigEndianExactly | apps/api/src/auth/totp.ts:75-79 | Four bytes are read as one number with weights 16777216, 65536, 256 and 1, the first modulo 128 |
| Totp.OffsetInBounds | apps/api/src/auth/totp.ts:74-79 | The offset is the last byte modulo 16, and the four bytes read lie inside every 20-byte digest |
| Totp.CodeOf | apps/api/src/auth/totp.ts:68-82 | Exactly six digits whose value is that number modulo a million |
| Totp.VerifyTotp | apps/api/src/auth/totp.ts:101-127 | Accepts the earliest step of the window whose code was presented if it is later than the stored step; each refusal has its exact reason |
| Totp.StepsExactly | apps/api/src/auth/totp.ts:84-86 | A step is thirty seconds, and the window reaches as many steps to either side as it says |
| Totp.SixDigitsExactly | apps/api/src/auth/totp.ts:107 | A code is six decimal digits |
| Totp.StepsIncrease | apps/api/src/auth/totp.ts:95-127 | For a caller that stores accepted steps, they strictly increase over any run and lie in the window of their time (section 5.2 of RFC 6238) |
| Totp.CodeAcceptedOncePerStep | apps/api/src/auth/totp.ts:95-127 | No step is accepted twice in a run |
| Bans.BanRegistry.InsertBan | apps/api/src/api/routes.ts:2449-2468 | Adds the row, or aborts when its id or its key of the partial unique index is taken |
| Bans.BanRegistry.Alerts | apps/api/src/agent-gateway/service.ts:377-427 | The sanctions of a batch of alerts: all of them or, when one aborts, none |
| Bans.SanctionExactly | apps/api/src/agent-gateway/service.ts:377-427 | A critical alert bans at once unless a ban of its scope, identifier and server is in force; any other queues a ban unless one of its scope, identifier and detector is queued already |
| Bans.BatchCreates | apps/api/src/agent-gateway/service.ts:377-427 | The identifiers that a batch answers with are those of the bans it has added, each once, and nothing else has changed |
| Bans.AppealExactly | apps/api/src/api/routes.ts:2689-2703 | An appeal is filed open against an active ban of its identifier, and against nothing else |
| Bans.BatchIsRun | apps/api/src/agent-gateway/service.ts:377-427 | A batch that commits is the run of its sanctions one after the other |
| Bans.BanRegistry.CreateBan | apps/api/src/api/routes.ts:2444-2493 | A manual ban, pending with its detector or active with its expiry; banning a banned identifier again renews reason, expiry and name of the ban in force, leaves every other ban alone and answers with its id |
| Bans.BanRegistry.LiftBan | apps/api/src/api/routes.ts:2521-2531 | Lifts the ban if and only if it is ACTIVE |
| Bans.BanRegistry.ReviewBan | apps/api/src/api/routes.ts:2585-2654 | A pending ban becomes ACTIVE, KICKED or DISMISSED as decided, confirming lifts the ban in force for its target, the detector is told the verdict, and no other ban changes; anything else is not found |
| Bans.BanRegistry.ResolveOneAppeal | apps/api/src/api/routes.ts:2741-2769 | An open appeal becomes APPROVED or REJECTED once, an unknown or decided one is refused as such; approval lifts the ban it names if that is still ACTIVE, and no other ban changes |
| BanLaws.RunRefines | apps/api/src/api/routes.ts:2437-2654 | Over every run the ban table refines a map from (scope, identifier, server) to the single ban in force |
| BanLaws.StepRefines | apps/api/src/api/routes.ts:2437-2766 | Each transaction does to that map what it means: put if absent, put, drop, or nothing |
| BanLaws.NeverAborted | db/migrations/0004_anticheat.sql:138-142 | With fresh identifiers no transaction is ever aborted by the unique index |
| Bans.ConfirmKeepsOneActive | apps/api/src/api/routes.ts:2591-2606 | Confirming lifts the ban in force for the same key first, so that the index holds |
| BanLaws.StepMoves | apps/api/src/api/routes.ts:2516-2654 | A status moves only from PENDING to ACTIVE, KICKED or DISMISSED and from ACTIVE to LIFTED; key and detector never change |
| BanLaws.AtMostTwoChanges | apps/api/src/api/routes.ts:2516-2654 | In any run a ban changes its status at most twice |
| BanLaws.FeedbackMatchesReviews | apps/api/src/api/routes.ts:2547-2654 | In every reachable registry a ban has exactly one feedback row if it was reviewed and has a non-empty detector and none otherwise, and the row says false_positive if and only if the ban is DISMISSED |
| BanLaws.StepConserves | apps/api/src/api/routes.ts:2547-2654 | Each transaction keeps that correspondence |
| BanLaws.CarryOutIsReview | apps/api/src/api/routes.ts:2585-2654 | The statements after the unlocked SELECT are the review when nothing comes in between |
| BanLaws.OverlappingReviews | apps/api/src/api/routes.ts:2575-2654 | For any two decisions on a ban that both loaded it while it was pending, in either schedule of their statements: the feedback stays right if and only if the ban has no detector; the first decision stands, unless both confirm and the second lifts after the first has committed, which leaves the ban LIFTED |
| Commands.CommandQueue.IssueCommand | apps/api/src/api/routes.ts:1553-1570 | Queues a PENDING command if the server exists and the id is new |
| Commands.CommandQueue.ClaimCommands | apps/api/src/agent-gateway/service.ts:588-626 | Open commands past their expiry become EXPIRED; of the other open ones that nobody has locked, as many as the limit allows become SENT, counted and stamped with their first sending, none left behind older than one sent; a negative limit changes nothing |
| Commands.Oldest | apps/api/src/agent-gateway/service.ts:614-620 | ORDER BY and LIMIT: any set of that size that leaves nothing older behind |
| Commands.CommandQueue.CommandResults | apps/api/src/agent-gateway/service.ts:650-695 | Exactly the open commands named are settled, FAILED for a failure and ACKNOWLEDGED otherwise, each by the first result that names it, whose verdict is stored and published |
| Commands.FirstResultIsStored | apps/api/src/agent-gateway/service.ts:656-695 | A batch of results settles exactly the open commands it names, each once and by its first result, whatever duplicates it holds |
| Commands.AcknowledgedInOrder | apps/api/src/agent-gateway/service.ts:656-684 | Settled commands are listed in the order in which the results first name them |
| Commands.AcknowledgedAtMostOnce | apps/api/src/agent-gateway/service.ts:658-688 | In every run a command is acknowledged at most once |
| Commands.SettledIsFinal | apps/api/src/agent-gateway/service.ts:594-688 | Once acknowledged, failed or expired, a command never changes, is never sent and never acknowledged again |
| Commands.DeliveryCountIsBatches | apps/api/src/agent-gateway/service.ts:608-620 | The delivery count is the number of batches that contained the command |
| Commands.StatusTellsDelivery | apps/api/src/agent-gateway/service.ts:608-620 | PENDING means never delivered, SENT means delivered, and the first sending time is kept |
| Commands.BatchIsDetermined | apps/api/src/agent-gateway/service.ts:614-620 | Unless two commands were created at the same instant, the batch is the only one possible |
| Commands.RedeliveryRepeats | apps/api/src/agent-gateway/service.ts:609-620 | A second poll without answers in between delivers the same batch again |
| Heatmap.HeatmapStore.Read | apps/api/src/api/routes.ts:1706-1732 | For a store with any history, and whatever is pushed or fails between the thirty fetches, the answer lists each cell once with the number of positions that the fetched minutes held in it by then, omits none, and its counts add up; with nothing in between, those are the positions pushed while opted in during the current and the 29 preceding minutes |
| Heatmap.InterleavedRead | apps/api/src/api/routes.ts:1707-1719 | Even when pushes come between the thirty fetches, the totals are those of what each fetched minute held by then; a fetch that fails counts as empty |
| Heatmap.FetchIsCountExactly | apps/api/src/agent-gateway/service.ts:575-580 | A fetch of a minute gives the plain count for every history if and only if it runs before the hash of that minute can have expired |
| Heatmap.PromptFetchIsInTime | apps/api/src/api/routes.ts:1706-1714 | Every fetch that runs at most a minute after the clock reading of its read is in time |
| Heatmap.HashesAreFaithful | apps/api/src/agent-gateway/service.ts:575-580 | While a minute can still be asked for, its hash cannot have expired and holds the plain count |
| Heatmap.HeatmapStore.Aggregate | apps/api/src/agent-gateway/service.ts:554-580 | Adds to each cell of the minute the number of its positions, keeps the hash for 31 minutes and leaves other minutes alone; without players or opt-in it does nothing |
| Heatmap.HeatmapStore.Totals | apps/api/src/api/routes.ts:1707-1719 | The sum of the thirty hashes as each was when fetched, and the cache after the pushes in between |
| Heatmap.CountPlayers | apps/api/src/agent-gateway/service.ts:566-572 | One counter per cell of the snapshot |
| Heatmap.CellsOf | apps/api/src/api/routes.ts:1721-1724 | Each counter becomes one cell by parsing its name, and the counts keep their sum |
| Heatmap.CellExactly | apps/api/src/agent-gateway/service.ts:567-569 | Every position is counted in exactly one cell, the square of fifty metres around fifty times its coordinates |
| Heatmap.FieldFormat | apps/api/src/agent-gateway/service.ts:570 | A counter is named by its two coordinates with a colon between them |
| Heatmap.TallyCounts | apps/api/src/agent-gateway/service.ts:566-572 | A counter holds the number of positions of its cell, and only cells with a position have one |
| Heatmap.FieldRoundTrip | apps/api/src/agent-gateway/service.ts:568-570 | Signed cell coordinates survive printing and parsing |
| Licence.LicenceRoundTrip | apps/api/src/api/routes.ts:3190-3223 | Verifying a key signed for some days, pasted with any white space, returns its binding, its plan, the second of signing and that plus 86400 seconds a day, until then and null afterwards, and null always for a plan or binding not among the known ones |
| Licence.ReadsOwnFields | apps/api/src/api/routes.ts:3212-3222 | Reading a payload returns its own fields under exactly those conditions, separators inside fields included |
| Licence.ReadExactly | apps/api/src/api/routes.ts:3213-3222 | A payload is read if and only if it has five parts, the version, a known plan, a proper binding and two numbers of which the second is still to come |
| Licence.TokenFormats | apps/api/src/api/routes.ts:3193-3195 | The parts of a payload in their order, joined by bars, and the signature behind a tilde |
| Licence.VerdictSays | apps/api/src/api/routes.ts:3659-3663 | A verdict names the server, whether it is revoked, and the second of signing |
| Licence.PayloadsBegin | apps/api/src/api/routes.ts:2780-2781 | The three kinds of signed string begin with v1, lv1 and sharedban |
| Licence.TokenIsCut | apps/api/src/api/routes.ts:3203-3211 | A token is cut at the tilde where it was glued |
| Licence.PayloadInjective | apps/api/src/api/routes.ts:3194 | Equal payloads mean equal licences |
| Licence.VerdictIsNoLicence | apps/api/src/api/routes.ts:3659-3663 | No signed verdict passes as a licence, whatever it names, although the secret is the same |
| Licence.OnlyLicencesAreRead | apps/api/src/api/routes.ts:2780-2781 | Of the three kinds of string signed with the licence secret, shared-ban hashes included, only a licence is ever read as one, and with its own fields |
| Licence.AcceptedIsSigned | apps/api/src/api/routes.ts:3202-3223 | An accepted key is a payload with its own signature, a known plan, a proper binding and an expiry to come |
| Licence.OnlyIssuedLicences | apps/api/src/api/routes.ts:3190-3223 | If only payloads signed by the platform carry valid signatures, an accepted key is a licence it issued, with the fields it was issued with |
| Sessions.LockoutBound | apps/api/src/auth/sessions.ts:213-245 | Sequential logins without a success or reset check at most 8 + floor(T/900 s) passwords, whatever the counters held at the start |
| Sessions.LockoutBoundIsReached | apps/api/src/auth/sessions.ts:29-31 | The bound is exact: a run with that many checks exists |
| Sessions.WrongPasswordsNeverLogIn | apps/api/src/auth/sessions.ts:222-238 | No run of wrong passwords ever logs in |
| Sessions.RightPasswordLogsIn | apps/api/src/auth/sessions.ts:213-263 | A right password logs in and clears the account unless it is locked at that time |
| Sessions.EighthFailureLocks | apps/api/src/auth/sessions.ts:224-238 | On an account without a lock wrong passwords count one by one, and it is the eighth failure since the last success that locks it, for fifteen minutes |
| Sessions.RecordedFailures | apps/api/src/auth/sessions.ts:213-238 | However the reads and writes of any number of wrong logins interleave, between one failure and one for each checked password is recorded, and all are recorded if and only if no login reads the row between the read and the write of another |
| Sessions.OverlappingLogins | apps/api/src/auth/sessions.ts:220-238 | From any unlocked account with f failures, a batch of wrong logins whose reads all come before any of their writes checks every password and records one failure, in whatever order they write: the account is locked afterwards if and only if f + 1 reaches the limit |
| Sessions.RetryAfterIsExact | apps/api/src/auth/sessions.ts:213-218 | Waiting retryAfterSeconds is enough, and a whole second less is not |
| Sessions.AccountRow.TryLogin | apps/api/src/auth/sessions.ts:205-263 | Logs in if and only if the account is not deleted, not locked and the password is right, and then clears counter and lock; a checked wrong password adds one failure and the eighth locks for fifteen minutes; a locked or deleted account is left alone |
| Sessions.AccountRow.CompletePasswordReset | apps/api/src/auth/sessions.ts:475-513 | A link that exists, is not consumed and has not expired is consumed, clears counter and lock and revokes every session; any other changes nothing |
| Sessions.ResetLinkWorksOnce | apps/api/src/auth/sessions.ts:472-493 | No run of resets succeeds twice with one link |
| Permissions.AnOwnerRemains | apps/api/src/api/routes.ts:516-603 | Over every serial run of role changes and removals from an organization with an OWNER, an OWNER remains |
| Permissions.NobodyRaisesThemselves | apps/api/src/rbac/permissions.ts:186-197 | No request raises the own rank of its actor, even when the actor role it was resolved with is out of date |
| Permissions.OnlyOwnersChangeOwners | apps/api/src/rbac/permissions.ts:199-207 | A run whose actors are never OWNER leaves the set of OWNERs as it was |
| Permissions.OverlappingRequests | apps/api/src/api/routes.ts:517-551 | When two requests both count before either writes, an OWNER remains if and only if they do not both take away one of only two OWNERs |
| Permissions.MutualDemotion | apps/api/src/api/routes.ts:531-533 | Two OWNERs who demote each other at the same time leave none |
| Permissions.AcceptingMayDemoteTheLastOwner | apps/api/src/api/routes.ts:803-809 | After any serial run, accepting an invitation takes the last OWNER away if and only if the last OWNER accepts it |
| Permissions.Organization.ChangeRole | apps/api/src/api/routes.ts:516-551 | Refuses with the reason of checkRoleChange or changes exactly that role |
| Permissions.Organization.RemoveMember | apps/api/src/api/routes.ts:574-603 | Refuses with the reason of checkMemberRemoval or removes exactly that member |
| Permissions.MatrixExactly | apps/api/src/rbac/permissions.ts:53-126 | Each permission belongs to its least role and to every role above that, and to no other |
| Permissions.RoleChangeExactly | apps/api/src/rbac/permissions.ts:186-210 | A role is changed by an ADMIN or OWNER only, not upwards by its holder, to or from OWNER by an OWNER only and not away from the last OWNER; the first rule broken is the reason given |
| Permissions.RemovalExactly | apps/api/src/rbac/permissions.ts:219-229 | A member is removed by an ADMIN or OWNER only, an OWNER by an OWNER only, and the last OWNER by nobody |
| Permissions.AcceptExactly | apps/api/src/api/routes.ts:803-809 | Accepting an invitation overwrites the role of the one row of the user, or adds a row |
| Permissions.HigherRankCanMore | apps/api/src/rbac/permissions.ts:53-126 | Although the matrix inherits nothing, a higher rank can do all that a lower one can |
| Permissions.OwnersCanAll | apps/api/src/rbac/permissions.ts:53-78 | OWNER has every permission, and exactly three of them are denied to ADMIN |
| TenantIsolation.OnlyPatchesAreFelt | apps/api/src/lib/db.ts:67-99 | Without any condition on who does what: over any interleaving of transactions of any tenants, users, agent look-ups and platform administrators on reused connections, the results and the rows of a tenant are those of its own transactions alone, with what administrators commit to its own rows put in where they commit |
| TenantIsolation.TenantsDoNotInterfere | apps/api/src/lib/db.ts:67-99 | Hence, when no administrator statement targets a row of the tenant, they are those of the run without anybody else, whatever administrators read and write elsewhere |
| TenantIsolation.AdminSparesExactly | db/migrations/0009_platform_admin.sql:25-31 | One transaction of an administrator leaves the rows of a tenant alone if and only if it does not commit or what it has written to them is what was there |
| TenantIsolation.SparedPatchesAreEmpty | db/migrations/0009_platform_admin.sql:25-31 | Administrators whose statements target no row of the tenant leave nothing to be felt in any run |
| TenantIsolation.OthersRowsAreInvisible | db/migrations/0001_init.sql:538-555 | Two databases that agree on a tenant's rows cannot be told apart by that tenant, whoever writes what |
| TenantIsolation.AdminWritesInterfere | db/migrations/0016_ban_appeals.sql:40-49 | Administrators do reach tenants: a row inserted under platform_admin_all is in the slice of a tenant that did nothing |
| TenantIsolation.ExecAgrees | db/migrations/0001_init.sql:550-552 | A statement of a tenant does and answers the same on databases that agree on its rows |
| TenantIsolation.StepOfOthers | db/migrations/0003_non_tenant_read_paths.sql:45-64 | A statement of another tenant, a user or an agent look-up leaves the rows of the tenant alone |
| TenantIsolation.StepOfAdmin | db/migrations/0009_platform_admin.sql:25-31 | What the COMMIT of an administrator does to the rows of a tenant is merge its writes to them |
| Policies.TransactionIsPrivate | apps/api/src/lib/db.ts:67-223 | Every transaction works on a private copy of the database, sees and changes there exactly the rows of its kind, and publishes the copy if and only if it commits; a malformed identifier is refused and nothing happens |
| Policies.FirstSelect | db/migrations/0003_non_tenant_read_paths.sql:45-64 | A first SELECT answers exactly the matching rows of the tenant, the memberships of the user, the agent keys, or the tables open to platform administrators |
| Policies.InsertThenFinish | db/migrations/0001_init.sql:549-553 | An INSERT goes through for rows of the tenant or of the platform tables only, and stays if and only if the transaction commits |
| Policies.ConformsExactly | apps/api/src/lib/db.ts:101-118 | Organization and user identifiers are org_ or usr_ and 26 lower-case letters or digits |
| Db.PooledConnection.With | apps/api/src/lib/db.ts:67-223 | Whatever the caller does, the connection goes back without settings or uncommitted writes; the result is that of the uninterrupted transaction, and a malformed identifier is refused before BEGIN |
| Db.PooledConnection.SetLocalFor | apps/api/src/lib/db.ts:79 | SET LOCAL of the one setting of the kind of transaction |
| Db.UninterruptedIsAlone | apps/api/src/lib/db.ts:77-98 | The uninterrupted transaction is the interleaved one whose statements nothing separates |

## Left out

- AuthSafety.AtMostOnce: acceptance is at most once, not exactly once, because the nonce is claimed before the signature is checked.
- RateBound.PerMinute: counts requests that an answering limiter admitted; the limiter fails open otherwise.
- Headerless.ParseSections: header blocks do not begin with a line break, which would make them headerless; when the scan runs past the last part, the epilogue is taken to hold no delimiter.
- Totp.DecodeSecret: non-ASCII letters that toUpperCase maps into the alphabet are treated as foreign.
- Heatmap.HeatmapStore.Read: positions are reals, so rounding of the division in floating point is not modelled; a push that fails half-way in the cache is left out.
- Licence.LicenceRoundTrip: integers beyond 2^53 and non-decimal spellings that Number accepts in a signed payload are left out; signing is deterministic within a second, so two servers with one binding get equal tokens.
- Commands.CommandQueue.CommandResults: does not check expiry, as the source does not; an expired command that no poll has marked can still be acknowledged.
- Sessions.LockoutBound: is about one account whose logins do not overlap; instants are milliseconds, and MFA is left out.
- TenantIsolation.OnlyPatchesAreFelt: unique indexes on identifiers alone (random 26-character identifiers), row locks and waiting, the code policies of invitations and free inserts into audit_logs are left out.
- Db.PooledConnection.With: a program is cut off with a rollback after a number of statements of its own choice; a connection whose ROLLBACK failed is left out.
- Bans.BanRegistry.CreateBan: risk, evidence, detection and issuer columns and the shared ban network are left out; expiry is an instant given by the caller; identifiers are parameters, so that a collision aborts.
- Bans.BanRegistry.ResolveOneAppeal: appeals are modelled within one organization; the cross-organization look-up of the public form is not.
- Rotation.AgentNeverLockedOut: excludes administrators, who may revoke every key; repeated rotations may leave more than two usable keys.
- Recovery codes, the rate limit map of uploads, audit rows, published events, incidents, analytics, billing, catalogues and invitations other than their acceptance.
- HTTP plumbing, cookies, schemas, logging, WebSocket transport, Discord OAuth and the web front end.
- HMAC, SHA-256, AES-GCM (with a stored secret that does not decrypt) and scrypt internals, and random identifiers.
