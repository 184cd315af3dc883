# AI Knowledge Hub server core, modelled in Dafny

This project models the server core of the AI Knowledge Hub, an Express and
Mongoose application. Users register and sign in with JSON Web Tokens. They
keep versioned, taggable documents and share them with collaborators. They
search the documents by embedding similarity and ask a Gemini-backed
assistant questions that are answered from the documents they may see.

The model covers these parts of the core:

- **Stores and hooks.** The document store and the version store, with the
  Version unique index, the Version pre-save numbering hook and the Document
  pre-remove cascade (`Documents`, `Database`).
- **Activity log.** The activity schema, its pre-save clean-up and the
  `Activity.log` static (`Activity`).
- **Embeddings.** The embedding service with its cache, cache keys, cosine
  guards and similarity ranking (`Embeddings`).
- **RAG.** The retrieval-augmented chat service with its sessions, context
  prompt, history window and sources (`Rag`).
- **Document handlers** (`DocsController`).
- **Request validation** (`Validate`).
- **JWT middleware** (`AuthMiddleware`).
- **Account handlers** (`AuthController`).

Gemini, the JWT library, bcrypt and the e-mail validators are external code.
Each one enters the model as a function parameter or as a recorded call (`Gemini`).

Where the code does something observable, the model does the same:

- **Version numbering.** Both the handler and the Version hook compute a version
  number. The model proves the two computations agree, proves each number is one
  more than the current version, and proves the numbers are gap-free from 1.
- **Schema validation.** Only `login` among the actions the controllers pass to
  `Activity.log` is in the schema's `action` enum. Every other log call fails
  validation, and `Activity.log` swallows the failure and returns `null`. So
  the document handlers, `register`, `updateProfile` and `changePassword`
  leave the log unchanged.
- **Document save order in `updateDocument`.** The new version is saved before
  the document. So a document the schema refuses (for example, a title that
  trims to empty) leaves the new version and the advanced `currentVersion`
  behind, and the handler answers 500.
- **Access tests.** The document schema has no `collaborators` path. The
  access tests of `getDocument`, `createVersion` and `getVersions` call
  `.some` on that missing list. So a caller who is not admitted at once gets
  500 rather than 403, and the handlers are modelled that way. The
  collaborator-aware rules the tests spell out are modelled beside them
  (`CanView`, `CanVersion`), together with the share that fills the list
  (see "## Findings").
- **Error handling.** `generateEmbeddings` lets an embedding failure through as
  a 500. Every other handler swallows it.

## Model

| member | source | states |
|---|---|---|
| Common.Trim | server/src/models/Document.js:4-8 | The schema's `trim`: the result is a slice of the input with only whitespace (as JavaScript's `trim` defines it) cut from both ends, and it neither starts nor ends with whitespace |
| Common.TrimNoMargin | server/src/models/Document.js:4-8 | Trimming a string without whitespace margins returns it unchanged |
| Common.TrimIdempotent | server/src/models/Document.js:22-25 | Trimming twice equals trimming once |
| Common.TakeLimit | server/src/services/rag.js:36 | Mongo's `.limit(n)`: 0 means no limit, otherwise the first `min(n, len)` elements in order |
| Common.ReplaceFirstSpec | server/src/middleware/auth.js:7 | `replace('Bearer ', '')` replaces the first occurrence only: the prefix before it is kept and it has no earlier occurrence; no occurrence leaves the string unchanged |
| Common.ReplaceFirst | server/src/middleware/auth.js:7 | `String.prototype.replace` with a string pattern: only the first occurrence is replaced (characterised by `Common.ReplaceFirstSpec`) |
| Documents.TrimAll | server/src/models/Document.js:22-25 | Each stored tag is the trimmed input tag, position by position |
| Documents.NewDocument | server/src/controllers/docs.controller.js:20-27 | A new document has the trimmed title, the trimmed tags, the given content, owner, visibility and metadata, current version 1 and no embeddings (schema defaults at models/Document.js:26-32); the schema has no `collaborators` path, so it has no collaborators |
| Documents.DocumentSavable | server/src/models/Document.js:4-17 | `required` on title, content and owner: a document saves only when each is non-empty |
| Documents.VersionSavable | server/src/models/Version.js:4-25 | `required` on document, content, changes and author: a version saves only when each is non-empty |
| Documents.VersionsOf | server/src/models/Document.js:44-49 | The versions of a document are exactly the stored versions that point to it |
| Documents.LatestNumber | server/src/models/Version.js:38-42 | The latest number is absent iff the document has no version; otherwise it is one of its numbers and bounds them all |
| Documents.NextVersionNumber | server/src/models/Version.js:38-44 | The hook's number: 1 with no earlier version of the document, else the latest number plus one |
| Documents.InsertVersion | server/src/models/Version.js:36-50 | A first save appends the version renumbered by the hook (properties in `Documents.InsertKeepsUnique` and `Documents.InsertNumbers`) |
| Documents.PreSaveVersionNumber | server/src/models/Version.js:36-53 | For a new version the hook's number is fresh for its document and above all of the document's numbers, and it is 1 for a document without versions; an existing version keeps its number |
| Documents.InsertKeepsUnique | server/src/models/Version.js:33-44 | A hook-numbered insert keeps the unique (document, versionNumber) index |
| Documents.InsertNumbers | server/src/models/Version.js:36-50 | An insert adds exactly the hook's next number to its document's numbers and leaves the other documents' numbers alone |
| Documents.GapFreeInsert | server/src/models/Version.js:44 | When a document's numbers are 1..k, the next number is k+1 and the numbers become 1..k+1 |
| Documents.CurrentIsLatest | server/src/models/Version.js:47-50 | When the current version is the one the hook last set, it is the latest number, and the next number is it plus one |
| Documents.SequentialInserts | server/src/models/Version.js:33-50 | Any batch of inserts for one document keeps its numbers gap-free (1..k+n) and the index unique |
| Documents.LatestAfterInserts | server/src/models/Version.js:36-50 | After n inserts for a document with no versions, its latest number is n |
| Documents.CascadeDeleteSpec | server/src/models/Document.js:56-60 | The cascade leaves the removed document with no versions and leaves every other document's versions and numbers unchanged |
| Documents.CascadeDelete | server/src/models/Document.js:56-60 | `Version.deleteMany({ document })`: every version of the document goes (properties in `Documents.CascadeDeleteSpec`) |
| Documents.CascadeVersionsOf | server/src/models/Document.js:56-60 | The cascade keeps the versions of every other document, in order |
| Database.InOrder | server/src/models/Document.js:3-41 | A listing in insertion order has one stored document per id, in the same positions |
| Database.VersionInsertKeepsInvariant | server/src/models/Version.js:33-53 | Inserting a version and setting its document's current version to the hook's number keeps the store invariant (unique index, versions point to stored documents, current version is the latest) |
| Database.RemoveKeepsInvariant | server/src/models/Document.js:56-60 | Removing a document with its cascade keeps the store invariant |
| Database.CascadeKeepsUnique | server/src/models/Document.js:56-60 | The cascade keeps the unique version index |
| Database.Database.constructor | server/src/models/Document.js:3-41 | An empty store satisfies the invariant |
| Database.Database.All | server/src/models/Document.js:3-41 | `Document.find()`: position i of the listing is the stored document whose id is at position i of the insertion order |
| Database.Database.InsertDocument | server/src/models/Document.js:3-41 | A first save stores the document and appends its id iff the schema accepts it (non-empty trimmed title, non-empty content, an owner); otherwise nothing changes |
| Database.Database.NoVersionsOfFreshId | server/src/models/Version.js:3-8 | An id with no stored document has no versions |
| Database.Database.SaveDocument | server/src/models/Document.js:3-41 | Saving a stored document replaces it iff the schema accepts it; the versions and the order are untouched |
| Database.Database.SaveNewVersion | server/src/models/Version.js:36-53 | A version is saved iff its required fields are present; its number is the hook's (1 or current+1), which becomes the document's current version; a refused version changes nothing |
| Database.Database.RemoveDocument | server/src/models/Document.js:56-60 | `remove()` deletes the document, all its versions and its place in the order |
| Gemini.GeminiService.GenerateEmbedding | server/src/services/gemini.js:30-39 | One recorded call; the provider's vector, or 'Failed to generate embedding with Gemini' when it fails |
| Gemini.GeminiService.Chat | server/src/services/gemini.js:41-59 | Every message but the last becomes the history and the last one's content is sent, as one recorded call; the provider's text, or 'Failed to generate chat response with Gemini'; with no messages no call is made and it fails |
| Activity.ParseAction | server/src/models/Activity.js:14-18 | The action enum: a string is accepted iff it is the name of one of the eight actions |
| Activity.ParseActionName | server/src/models/Activity.js:14-18 | Each action's name parses back to that action |
| Activity.CleanDetails | server/src/models/Activity.js:59-69 | The pre-save loop over the detail keys, read as a loop over the entries (see "## Left out" for the Map reading), ends with the details minus their null and undefined entries |
| Activity.WithoutNulls | server/src/models/Activity.js:59-69 | The details with the null entries removed and every other entry kept |
| Activity.WithoutNullsSpec | server/src/models/Activity.js:59-69 | A key survives the clean-up iff it was present and neither null nor undefined, and keeps its value; cleaning twice equals cleaning once |
| Activity.Logged | server/src/models/Activity.js:3-18 | A record is saved iff the user is present and the action is in the enum; it keeps the action, user, document, ip address and user agent, and its details are the given details without their null entries (no details stays none) |
| Activity.ControllerActionsRejected | server/src/models/Activity.js:14-18 | Every action name the controllers use except `login` fails the enum, so nothing is recorded |
| Activity.LogControllerAction | server/src/controllers/docs.controller.js:43-50 | A controller's log call with one of those names leaves the log unchanged |
| Activity.ActivityLog.constructor | server/src/models/Activity.js:83 | An empty collection |
| Activity.ActivityLog.Log | server/src/models/Activity.js:72-81 | `Activity.log` returns the saved record or null (never throws), and the collection grows by that record exactly when one is saved |
| Embeddings.DecimalRoundTrip | server/src/services/embeddings.js:104 | The decimal rendering of `text.length` in the cache key parses back to the length |
| Embeddings.DecimalLength | server/src/services/embeddings.js:104 | A length over 100 renders with at least three digits |
| Embeddings.DecimalInjective | server/src/services/embeddings.js:104 | Distinct lengths render differently |
| Embeddings.CacheKey | server/src/services/embeddings.js:103-105 | The text itself up to 100 characters, else its first 50, its length and its last 50 (properties in the three lemmas below) |
| Embeddings.CacheKeyShortIsText | server/src/services/embeddings.js:104 | A text of at most 100 characters is its own key |
| Embeddings.CacheKeyLongLength | server/src/services/embeddings.js:104 | A longer text has a key of at least 103 characters, so it never collides with a short text's key |
| Embeddings.CacheKeyCollision | server/src/services/embeddings.js:103-105 | Two texts share a key iff they are equal short texts, or long texts of the same length with the same first 50 and last 50 characters |
| Embeddings.ZeroVectorHasNoMagnitude | server/src/services/embeddings.js:95-98 | An all-zero vector has zero magnitude, so its similarity is 0 |
| Embeddings.CosineSimilarity | server/src/services/embeddings.js:91-100 | 0 when a vector is missing, the lengths differ or a magnitude is 0; otherwise the dot product over the product of the magnitudes |
| Embeddings.ScoreOf | server/src/services/embeddings.js:71-77 | A document without embeddings, or with a different length from the query, scores 0 and is otherwise unchanged |
| Embeddings.ScoreAll | server/src/services/embeddings.js:71-77 | Each document is scored in place |
| Embeddings.InsertDescSorted | server/src/services/embeddings.js:82 | Inserting into a list sorted by descending similarity keeps it sorted |
| Embeddings.SortDesc | server/src/services/embeddings.js:82 | `sort((a, b) => b.similarity - a.similarity)` returns a permutation in non-increasing similarity |
| Embeddings.InsertDescStable | server/src/services/embeddings.js:82 | An insertion keeps the relative order of elements with equal similarity |
| Embeddings.SortDescStable | server/src/services/embeddings.js:82 | The sort is stable: for each similarity value, the elements with it keep their input order |
| Embeddings.Rank | server/src/services/embeddings.js:80-83 | Filter, sort and slice give at most `limit` results, all at least `minSimilarity`, in non-increasing order, drawn from the scored list |
| Embeddings.RankIsTop | server/src/services/embeddings.js:80-83 | The ranking has min(limit, number passing the filter) elements, and none of the passing elements left out scores above any element kept |
| Embeddings.Visible | server/src/services/embeddings.js:61-66 | A document is a candidate iff it is stored and the user owns it or it is public |
| Embeddings.EmbeddingOutcome | server/src/services/embeddings.js:10-29 | A cached key returns the cached vector; otherwise Gemini's vector, or the error 'Failed to generate embedding' |
| Embeddings.CacheAfter | server/src/services/embeddings.js:13-22 | The cache only grows, keeps every existing entry, and gains the text's key iff the lookup succeeded, holding the returned vector |
| Embeddings.RepeatedLookupHits | server/src/services/embeddings.js:13-16 | After a successful lookup, the same text hits the cache, returns the same vector and leaves the cache as it is |
| Embeddings.CollidingTextsShareEmbedding | server/src/services/embeddings.js:103-105 | Texts with the same key get the first text's embedding from the cache |
| Embeddings.EmbeddingService.constructor | server/src/services/embeddings.js:5-8 | The cache starts empty |
| Embeddings.EmbeddingService.GetEmbedding | server/src/services/embeddings.js:10-29 | Returns the lookup's outcome, updates the cache accordingly, and calls Gemini only on a cache miss |
| Embeddings.EmbeddingService.UpdateDocumentEmbeddings | server/src/services/embeddings.js:32-51 | A missing document or a failed embedding is the error 'Failed to update document embeddings' with nothing stored; otherwise the document's embeddings become the content's vector and nothing else changes |
| Embeddings.EmbeddingService.FindSimilarDocuments | server/src/services/embeddings.js:54-88 | A failed query embedding answers []; otherwise the ranking of the first `2*limit` visible documents, scored against the query vector |
| Rag.Candidates | server/src/services/rag.js:29-35 | A document is a candidate iff it is stored, the user owns it or it is public, and it matches the text search |
| Rag.TopByScore | server/src/services/rag.js:36-37 | At most `limit` candidates when `limit` is positive (0 means no limit), each a candidate, in non-increasing text score |
| Rag.TopByScoreIsTop | server/src/services/rag.js:36-37 | The ranking keeps exactly min(limit, candidates) documents (all of them when `limit` is 0), and every candidate left out scores no higher than every document kept |
| Rag.ScoreEach | server/src/services/rag.js:37 | Each candidate paired with its text score, in place |
| Rag.Best | server/src/services/rag.js:36-37 | The best-scored at most `limit` entries, drawn from the input, in non-increasing score |
| Rag.BestIsTop | server/src/services/rag.js:36-37 | `sort` then `limit` keeps exactly min(limit, len) entries (all when `limit` is 0), and every entry left out scores no higher than every entry kept |
| Rag.RankedDocs | server/src/services/rag.js:37 | Projecting the ranking back to documents keeps its order by score, position by position, and draws only candidates |
| Rag.TextSearch | server/src/services/rag.js:29-38 | The search returns at most `limit` documents, each visible to the user, matching the query and stored, in non-increasing text score |
| Rag.TextSearchIsTop | server/src/services/rag.js:29-38 | The search returns exactly min(limit, number of matching visible documents) documents, and every matching visible document left out scores no higher than every one returned |
| Rag.Relevant | server/src/services/rag.js:22-45 | A failed query embedding answers []; otherwise the answer is the text search itself (so `Rag.TextSearchIsTop` applies): at most `limit` documents, each visible to the user and stored |
| Rag.ContextBlock | server/src/services/rag.js:62-64 | A context block is at most the header, the title, a newline, 500 content characters and the ellipsis long |
| Rag.ContextBlockShape | server/src/services/rag.js:62-64 | A block is 'Document: ' + title + newline + the first 500 content characters + '...' |
| Rag.FormatContext | server/src/services/rag.js:62-64 | The context blocks joined with blank lines (characterised by `Rag.FormatContextSnoc`) |
| Rag.FormatContextSnoc | server/src/services/rag.js:62-64 | The context joins the blocks with a blank line between them |
| Rag.SystemPromptRoundTrip | server/src/services/rag.js:67-70 | The system prompt starts with the fixed preamble, and the context can be read back from it |
| Rag.SystemPrompt | server/src/services/rag.js:67-70 | The fixed preamble followed by the context (read back by `Rag.SystemPromptRoundTrip`) |
| Rag.ChatMessagesSplit | server/src/services/rag.js:79-80 | The messages sent are the system message, then the history, then the user's message last |
| Rag.ChatMessages | server/src/services/rag.js:73-80 | The system message, the history and the question, in that order |
| Rag.TurnCall | server/src/services/rag.js:79-80 | The call the provider receives: system message and history as chat history, the question as the message sent |
| Rag.KeepLast | server/src/services/rag.js:89-91 | Keeping the last n messages yields min(n, len) messages, a suffix of the history |
| Rag.HistoryAfterReply | server/src/services/rag.js:83-91 | After a reply the history holds at most 10 messages, ends with the question and the answer, and loses nothing while under the bound |
| Rag.KeepLastIdempotent | server/src/services/rag.js:89-91 | Trimming the history twice equals trimming once |
| Rag.Sources | server/src/services/rag.js:93-100 | One source per context document, in order |
| Rag.SourceShape | server/src/services/rag.js:93-100 | A source carries the document's id and title, and a snippet of at most the first 150 content characters followed by '...' |
| Rag.SourceOf | server/src/services/rag.js:95-99 | A source: the document's id, title and first 150 characters followed by '...' |
| Rag.Turn | server/src/services/rag.js:73-104 | A failed chat keeps the pushed question and answers 'Failed to generate response'; a successful one answers with the sources, and the history becomes exactly the last 10 messages of the old history extended with the question and the answer |
| Rag.KeepRecent | server/src/services/rag.js:89-91 | The trim after a reply leaves exactly the last ten messages |
| Rag.FailedTurnGrowsHistory | server/src/services/rag.js:73-76 | A failed chat grows the history by exactly the question |
| Rag.RAGService.constructor | server/src/services/rag.js:5-8 | No sessions |
| Rag.RAGService.CreateSession | server/src/services/rag.js:11-19 | Stores an empty session under the new id and returns that id |
| Rag.RAGService.GetRelevantDocuments | server/src/services/rag.js:22-45 | Embeds the query once and returns the relevant documents |
| Rag.RAGService.GenerateResponse | server/src/services/rag.js:48-105 | An unknown session answers 'Session not found' and calls nothing; otherwise one embedding call, one chat call with the history and the question, and the session's history and the reply as `Turn` states |
| Rag.RAGService.Respond | server/src/services/rag.js:62-104 | The chat step for a known session: one chat call, then the reply and the history as `Turn` states |
| Rag.RAGService.ClearSession | server/src/services/rag.js:108-110 | Deletes the session and says whether it existed |
| Validate.UsernameErrors | server/src/middleware/validate.js:6-11 | On the trimmed username: the length message iff shorter than 3, the pattern message iff a character is not a letter, digit or underscore; no errors iff both rules hold |
| Validate.EmailErrors | server/src/middleware/validate.js:14-18 | An email error iff the trimmed email is not an e-mail address, and then only that message |
| Validate.PasswordErrors | server/src/middleware/validate.js:21-29 | Each of the four password messages appears iff its rule (length at least 6, a digit, a lower-case letter, an upper-case letter) fails |
| Validate.MessagesDistinct | server/src/middleware/validate.js:21-29 | The password and username messages are pairwise distinct, so each error names one rule |
| Validate.ValidateRegister | server/src/middleware/validate.js:4-43 | The request goes on iff every rule holds, with the trimmed username and the trimmed, normalised email; otherwise 400 with the username, email and password errors in that order |
| Validate.RegisterAcceptable | server/src/middleware/validate.js:4-43 | Every rule of the three chains holds (used by `Validate.ValidateRegister` and `Validate.RegisterAcceptedLoginAccepted`) |
| Validate.ValidateLogin | server/src/middleware/validate.js:46-71 | The request goes on iff the email is valid and the password is non-empty, with the normalised email; otherwise 400 with exactly the failing rules' messages: the e-mail message when the trimmed e-mail is invalid, then the password message when the password is empty |
| Validate.RegisterAcceptedLoginAccepted | server/src/middleware/validate.js:4-71 | Credentials that pass registration pass login, with the same normalised email |
| Validate.UsernameRulesIgnorePadding | server/src/middleware/validate.js:6-11 | The username rules give the same errors for the padded and the trimmed username |
| Validate.AcceptedUsernameHasNoSpace | server/src/middleware/validate.js:6-11 | An accepted username has at least 3 characters and no whitespace |
| AuthMiddleware.Authenticate | server/src/middleware/auth.js:5-45 | The request goes on iff a non-empty token was extracted and verifies, with `req.user` set to the token's user; otherwise 401 'No token, authorization denied', 401 'Invalid token', 401 'Token expired' or 500 'Server error', by cause |
| AuthMiddleware.ExtractBearer | server/src/middleware/auth.js:7 | 'Bearer ' + t yields t |
| AuthMiddleware.ExtractAnywhere | server/src/middleware/auth.js:7 | The first 'Bearer ' is removed wherever it occurs, not only at the start |
| AuthMiddleware.ExtractWithoutBearer | server/src/middleware/auth.js:7 | A header without 'Bearer ' is taken whole as the token |
| AuthMiddleware.ExtractToken | server/src/middleware/auth.js:7 | No header gives no token; a header gives itself with the first 'Bearer ' removed |
| AuthMiddleware.Request.constructor | server/src/middleware/auth.js:5 | A request with a header, no user and no `next()` call yet |
| AuthMiddleware.Request.Auth | server/src/middleware/auth.js:5-45 | Decides as `Authenticate`; on success sets `req.user` and calls `next()` once, otherwise changes neither |
| AuthController.TokenClaims | server/src/controllers/auth.controller.js:8-14 | The token's payload is the user's id and role |
| AuthController.FindOne | server/src/controllers/auth.controller.js:29-30 | `findOne` returns the first user the query selects, and none only when no user matches |
| AuthController.FindUnique | server/src/controllers/auth.controller.js:83 | Under the unique indexes, a lookup by id, email or username finds exactly the matching user |
| AuthController.RegisterOutcome | server/src/controllers/auth.controller.js:19-68 | Validation errors answer 400 with them; 201 iff there are none and no user has the email or the username, with the new user (role 'user') appended and a signed token with the public profile; otherwise 400 'User already exists' with the table unchanged |
| AuthController.RegisterKeepsUnique | server/src/controllers/auth.controller.js:29-42 | Registration keeps ids, usernames and emails unique |
| AuthController.LoginOutcome | server/src/controllers/auth.controller.js:73-118 | Validation errors answer 400; 200 iff the user found by email has a matching password, with that user's token and profile; every other failure is the same 400 'Invalid credentials' |
| AuthController.LoginSucceedsIff | server/src/controllers/auth.controller.js:83-92 | Under unique emails, login succeeds iff some user has the email and a matching password |
| AuthController.LoginIsLogged | server/src/controllers/auth.controller.js:98-103 | The login activity passes the schema and is recorded with the user, the ip and the agent |
| AuthController.RegisterThenLogin | server/src/controllers/auth.controller.js:19-118 | After a registration, logging in with the same credentials answers 200 with the same token and profile |
| AuthController.IssuedTokenAuthenticates | server/src/controllers/auth.controller.js:8-14 | A token issued on sign-in, sent as 'Bearer ' + token, passes the middleware with the user's id and role |
| AuthController.GetMeOutcome | server/src/controllers/auth.controller.js:123-131 | Always 200; a profile is found iff a user has the id, and it is that user's public profile |
| AuthController.RegisterThenGetMe | server/src/controllers/auth.controller.js:19-131 | After a registration, `getMe` with the new id returns the new public profile |
| AuthController.UpdateProfileOutcome | server/src/controllers/auth.controller.js:136-184 | 404 for an unknown user; a changed username already in use answers 400 'Username already in use' before a changed email in use ('Email already in use'); 200 iff neither clash, then only that user changes, to the new non-empty values; a refusal changes nothing |
| AuthController.UpdateProfileKeepsUnique | server/src/controllers/auth.controller.js:147-163 | The update keeps ids, usernames and emails unique |
| AuthController.ChangePasswordOutcome | server/src/controllers/auth.controller.js:189-222 | 404 for an unknown user; 200 iff the current password matches, then only that user's password changes; otherwise 400 'Current password is incorrect' with nothing changed; uniqueness is kept |
| AuthController.ChangePasswordThenLogin | server/src/controllers/auth.controller.js:189-222 | After a change, the new password logs in (iff it matches itself under the hash), and an old password that does not match the new one fails |
| AuthController.UserStore.constructor | server/src/controllers/auth.controller.js:2 | An empty user table satisfies the uniqueness invariant |
| AuthController.UserStore.Register | server/src/controllers/auth.controller.js:19-68 | The reply and the new table are `RegisterOutcome`'s; uniqueness is kept; the 'register' log call records nothing |
| AuthController.UserStore.Login | server/src/controllers/auth.controller.js:73-118 | The reply is `LoginOutcome`'s; a successful login appends exactly its activity record, a failed one logs nothing |
| AuthController.UserStore.GetMe | server/src/controllers/auth.controller.js:123-131 | The reply is `GetMeOutcome`'s |
| AuthController.UserStore.UpdateProfile | server/src/controllers/auth.controller.js:136-184 | The reply and the table are `UpdateProfileOutcome`'s; uniqueness is kept; the log is unchanged |
| AuthController.UserStore.ChangePassword | server/src/controllers/auth.controller.js:189-222 | The reply and the table are `ChangePasswordOutcome`'s; uniqueness is kept; the log is unchanged |
| DocsController.AccessNesting | server/src/controllers/docs.controller.js:183-186 | Whoever may modify may create versions; the owner may do everything; a plain collaborator may view and version but not modify |
| DocsController.AdminCannotViewPrivate | server/src/controllers/docs.controller.js:183-186 | An admin who is neither owner nor collaborator may modify and version another's private document but not view it |
| DocsController.CanView | server/src/controllers/docs.controller.js:183-185 | The rule the getDocument test states: public, owner or collaborator |
| DocsController.CanModify | server/src/controllers/docs.controller.js:227 | Owner or admin |
| DocsController.CanVersion | server/src/controllers/docs.controller.js:425-427 | The rule the createVersion and getVersions tests state: owner, admin or collaborator |
| DocsController.ViewGateAsWritten | server/src/controllers/docs.controller.js:183-187 | getDocument's test as evaluated with `collaborators` undefined: admits public or owned documents, throws otherwise |
| DocsController.VersionGateAsWritten | server/src/controllers/docs.controller.js:425-428 | createVersion's and getVersions' test as evaluated with `collaborators` undefined: admits owner or admin, throws otherwise |
| DocsController.GatesAsWrittenNeverDeny | server/src/controllers/docs.controller.js:183-187 | As written the tests never refuse with 403; whoever the collaborator-aware rules refuse gets a throw (500); the as-written tests throw exactly where the rules with no collaborators refuse |
| DocsController.CollaboratorGetsServerError | server/src/models/Document.js:3-41 | For a private document of alice listing bob, the rules admit bob and refuse carol, while the code as written throws for both |
| DocsController.LatestVersion | server/src/controllers/docs.controller.js:244-248 | `findOne` sorted by descending number returns a version of the document with the highest number, or none when it has none |
| DocsController.HandlerAgreesWithHook | server/src/controllers/docs.controller.js:250 | The number the handler computes is the number the Version hook assigns |
| DocsController.HandlerVersionNumber | server/src/controllers/docs.controller.js:250 | `latestVersion ? latestVersion.versionNumber + 1 : 1` (agreement with the hook in `DocsController.HandlerAgreesWithHook`) |
| DocsController.HandlerNumberIsCurrentPlusOne | server/src/controllers/docs.controller.js:436-442 | The handler's number is 1 for a document without versions and the current version plus one otherwise |
| DocsController.ApplyUpdate | server/src/controllers/docs.controller.js:235-239 | Each field given is replaced (title and tags trimmed by the schema), each field not given is kept, and id, owner, collaborators, current version and embeddings are untouched |
| DocsController.ContentChanged | server/src/controllers/docs.controller.js:232 | The content changed iff a non-empty content was given and differs from the stored one |
| DocsController.TrimAllIdempotent | server/src/models/Document.js:22-25 | Trimming the tags twice equals trimming once |
| DocsController.EmptyUpdateIsIdentity | server/src/controllers/docs.controller.js:235-239 | An update with no fields leaves the document as it is |
| DocsController.ApplyUpdateIdempotent | server/src/controllers/docs.controller.js:235-239 | Applying the same update twice equals applying it once |
| DocsController.FirstIndex | server/src/controllers/docs.controller.js:657 | `indexOf` returns the first position holding the tag, and none iff the tag is absent |
| DocsController.RemoveFirstOccurrence | server/src/controllers/docs.controller.js:657-664 | `splice(index, 1)` removes exactly the first occurrence: one element fewer, the same multiset minus that tag, everything else in order |
| DocsController.WithTagAsWrittenDuplicates | server/src/controllers/docs.controller.js:605-610 | As written, adding ' ai' to ['ai'] passes the duplicate check and stores ['ai', 'ai'] |
| DocsController.WithTagAsWritten | server/src/controllers/docs.controller.js:605-610 | The tag check as written: refuses only the raw tag when present, otherwise appends the trimmed tag |
| DocsController.WithTag | server/src/controllers/docs.controller.js:605-610 | With the check on the stored (trimmed) form, the tag is refused as 'Tag already exists' iff its trimmed form is present, otherwise appended trimmed; a duplicate-free list stays duplicate-free |
| DocsController.ShareAsWrittenNeverShares | server/src/controllers/docs.controller.js:345-409 | As written, sharing never succeeds: past the access and self checks the unimported `User` makes it answer 500 |
| DocsController.ShareAsWritten | server/src/controllers/docs.controller.js:345-409 | shareDocument as written: 403 unless owner or admin, 400 for a self-share, otherwise 500 from the unimported `User` |
| DocsController.SharedUserGetsIn | server/src/controllers/docs.controller.js:376-377 | Once a share succeeds, the user it names passes the collaborator-aware view and version tests whatever their role, and every other user's access is unchanged |
| DocsController.Share | server/src/controllers/docs.controller.js:355-377 | With the lookup in place, sharing succeeds iff the caller may modify, the target is someone else, exists and is not yet a collaborator; then the target is appended; 403, 400 'Cannot share with yourself', 404 'User not found' and 400 'Document already shared with this user' otherwise |
| DocsController.SortByNumberDesc | server/src/controllers/docs.controller.js:518-520 | The versions sorted by descending number: a permutation, in non-increasing number order |
| DocsController.InsertByNumber | server/src/controllers/docs.controller.js:520 | Inserting into a descending list adds exactly the version and keeps the order |
| DocsController.RefreshEmbeddings | server/src/controllers/docs.controller.js:53-58 | The embedding update whose failure is swallowed changes at most the document's embeddings |
| DocsController.StoreNewDocument | server/src/controllers/docs.controller.js:20-40 | The document is stored iff the schema accepts it, and then version 1 'Initial version' by the author follows; otherwise nothing changes |
| DocsController.CreatedDocument | server/src/controllers/docs.controller.js:16-27 | The body's defaults: an absent `isPublic`, `tags` or `metadata` gives false, [] or {}, a given one is used (tags trimmed); title trimmed, content and owner as given, current version 1, no embeddings |
| DocsController.CreateDocument | server/src/controllers/docs.controller.js:10-65 | Validation errors answer 400 with nothing stored; a refused document answers 500 with nothing stored; otherwise 201 with the document built by `CreatedDocument` (body defaults applied), version 1 stored and at most its embeddings filled in |
| DocsController.GetDocument | server/src/controllers/docs.controller.js:172-206 | 404 for a missing document; 200 with the document iff it is public or owned by the user; for anyone else the collaborator test throws and the answer is 500 'Server error' |
| DocsController.SaveContentVersion | server/src/controllers/docs.controller.js:436-457 | The version gets the handler's number, which equals the hook's (1 or current+1); it is stored and becomes current iff savable |
| DocsController.SaveEdited | server/src/controllers/docs.controller.js:269 | `document.save()` of an edited document replaces it iff the schema accepts it |
| DocsController.Updated | server/src/controllers/docs.controller.js:232-265 | The edited document; when the content changed, its content is the new one and its current version the new number; otherwise the current version stays |
| DocsController.CommitUpdate | server/src/controllers/docs.controller.js:242-269 | The version save (when the content changed) comes before the document save; a refused version stops both; a refused document leaves the new version and its current version behind |
| DocsController.UpdateDocument | server/src/controllers/docs.controller.js:211-302 | Validation errors 400; 404; 403 unless owner or admin; when the content changed, a new version with the next number; 200 with the updated document when both saves pass, else 500, with the new version kept when only the document save failed |
| DocsController.ChangesOrDefault | server/src/controllers/docs.controller.js:449 | An empty description becomes 'No change description provided'; a given one is kept |
| DocsController.CommitVersion | server/src/controllers/docs.controller.js:436-461 | The version with the next number is stored, then the document gets its content and current version; a refused version changes nothing |
| DocsController.CreateVersion | server/src/controllers/docs.controller.js:414-497 | 404; 500 'Server error' unless owner or admin (the collaborator test throws); 400 'Content is required'; otherwise 201 with the new number (1 or current+1), the version stored and the document's content and current version updated |
| DocsController.GetVersions | server/src/controllers/docs.controller.js:502-537 | 404; 500 'Server error' unless owner or admin (the collaborator test throws); otherwise 200 with the document's id, title and current version and, for each of its versions, only the selected number, description and author, sorted by descending number: one entry per version, each number one of the document's, strictly decreasing |
| DocsController.VersionListingStrict | server/src/models/Version.js:33 | Under the unique index the listing holds only the document's versions, with strictly decreasing numbers |
| DocsController.VersionListing | server/src/controllers/docs.controller.js:518-521 | The listing has one entry per version of the document, each entry's number is one of the document's numbers, and the numbers strictly decrease |
| DocsController.VersionsOfDistinct | server/src/models/Version.js:33 | Under the unique index a document's versions carry distinct numbers |
| DocsController.DeleteDocument | server/src/controllers/docs.controller.js:307-340 | 404; 403 unless owner or admin; otherwise the document, all its versions and its place in the order are removed |
| DocsController.ShareDocument | server/src/controllers/docs.controller.js:345-409 | 404 for a missing document, then `Share`'s refusals; on success the target is a collaborator and the reply names the document, the target and the permission, which is 'view' when the body gives none |
| DocsController.AddTag | server/src/controllers/docs.controller.js:585-639 | 400 'Tag is required' for an empty tag; 404; 403 unless owner or admin; 400 'Tag already exists' when the trimmed tag is present; otherwise the trimmed tag is appended |
| DocsController.RemoveTag | server/src/controllers/docs.controller.js:644-693 | 404; 403 unless owner or admin; 400 'Tag not found'; otherwise the first occurrence is removed |
| DocsController.GenerateEmbeddings | server/src/controllers/docs.controller.js:698-748 | 404; 403 unless owner or admin; a failed embedding answers 500 'Error generating embeddings'; otherwise the document's embeddings become the content's vector |

## Left out

- Floating point: similarities and vectors are exact reals. The final quotient `dot / (|a| * |b|)` is a parameter of the embedding service (`quotient`), so rounding is not modelled. The converse of `Embeddings.ZeroVectorHasNoMagnitude` holds over the reals, but is not stated.
- Mongo's `$text` matching and its `textScore` are parameters of the RAG service (`matches`, `score`). The text index itself (models/Document.js:52) is not modelled.
- `getDocuments`, `getPublicDocuments` and `getVersion` (query filters, pagination and population) are not modelled. Nothing else in the model depends on them.
- Timestamps (`createdAt`, `updatedAt`, `Date.now`) are not modelled. A session's creation time is a parameter of `Rag.RAGService.CreateSession`.
- The random session id (uuid) is a parameter of `Rag.RAGService.CreateSession`.
- Concurrency between requests: every handler runs alone, so races between the handler's number and the hook's number are not modelled.
- A malformed id raises a cast error (`err.kind === 'ObjectId'`), which the handlers answer 404. The model has no malformed ids.
- Database failures other than schema validation (the catch-all 500 'Server error') are not modelled.
- The Gemini SDK is a function parameter of `Gemini.GeminiService`. The model keeps the order of calls and the error messages.
- JWT signing and verification are parameters (`sign`, `verify`), and bcrypt's `matchPassword` is the parameter `matches`.
- e-mail validation and normalisation (`isEmail`, `normalizeEmail`) are parameters of `Validate`.
- User.js is not part of this model: password hashing, its schema validation and its unique indexes are not modelled. The indexes are modelled as the `Unique` invariant of the user table.
- `updateProfile` and `changePassword` read `req.user.id` outside their `try`. A missing user there is an unhandled error; the model always has an authenticated caller.
- The ip address and user agent passed by the document handlers are left out, since those log calls record nothing.
- The route validators of the document routes are not part of this model. Their result is the `errors` parameter of `DocsController.CreateDocument` and `DocsController.UpdateDocument`.
- AuthController.ChangePasswordOutcome: the new password is not validated, as in the source; the contract says so by accepting any new password.
- Strings are sequences of Unicode characters. JavaScript's `length`, `substring` and `slice` count UTF-16 code units, so for text outside the Basic Multilingual Plane the 100/50-character cut of `Embeddings.CacheKey`, and the 500- and 150-character excerpts of `Rag.ContextBlock` and `Rag.SourceOf` count differently. For example, 51 copies of U+1F600 are 102 code units, so the source builds a long key, while `Embeddings.CacheKeyShortIsText` treats the text as short. `Embeddings.CacheKeyCollision` holds only for text in the Basic Multilingual Plane. validator's `isLength` also ignores the variation selectors U+FE0E and U+FE0F, which the model counts.
- Activity.CleanDetails: `details` is declared as a Mongoose Map (models/Activity.js:19-22). `Object.keys` on a Map lists none of its entries, so the hook as run may delete nothing. The model follows the hook's evident intent and removes the null entries. `Activity.WithoutNulls` and `Activity.Logged` carry that reading.
- Database.Database.All: the model lists documents in insertion order. The unsorted `find().limit(2 * limit)` in `findSimilarDocuments` (server/src/services/embeddings.js:61-67) uses whatever order Mongo returns. Insertion order is one such order, so the set of candidates it truncates to is one possible outcome, not the only one.
- DocsController.GetDocument: the model assumes a Mongoose version before 6, in which `populate('collaborators')` on a path the schema lacks passes silently. From version 6 on, strictPopulate makes that populate throw, and every request for a stored document answers 500. The Mongoose version is not part of the sources. Likewise `DocsController.DeleteDocument` assumes a version where `document.remove()` exists (removed in Mongoose 7).
- DocsController.GetVersions: each listed entry has the version's number, description and author id. The `createdAt` timestamp is not modelled, and `populate('createdBy', 'username')` would replace the author id with the author's username, which needs the user table that the document handlers do not have.
- Activity details are strings. A boolean detail is recorded as `true` or `false`, a number as its decimal digits, and the `updatedFields` list of `updateDocument` as the given field names joined with commas, in the order title, content, isPublic, tags, metadata (the request body's own key order is not modelled). No such record is ever saved, since those actions fail the enum.
- Generic text in replies (`msg` strings such as 'Document removed' or 'Document shared successfully') is folded into the payload constructors.

## Findings

| source | as written | input that shows it | evidently intended | confidence | as-written member | corrected member |
|---|---|---|---|---|---|---|
| server/src/controllers/docs.controller.js:366 | `User.findById` is called, but `User` is never imported in the controller. Every share past the access and self checks throws a ReferenceError and answers 500 | the owner shares a document with another existing user | import `User`, look the user up, answer 404 'User not found' when absent, otherwise add the collaborator; this also needs the `collaborators` path of the next row, without which the `includes` at :372 and the `push` at :377 would still throw | not executed | DocsController.ShareAsWrittenNeverShares | DocsController.ShareDocument |
| server/src/controllers/docs.controller.js:605-610 | the duplicate check compares the raw tag, while the schema stores the trimmed tag (models/Document.js:22-25) | tags ['ai'], new tag ' ai' | compare the trimmed tag, so no duplicate is stored | not executed | DocsController.WithTagAsWrittenDuplicates | DocsController.AddTag |
| server/src/models/Document.js:3-41 | the schema has no `collaborators` path, so `document.collaborators` is undefined; the access tests of getDocument (docs.controller.js:183-185), createVersion (:425-427) and getVersions (:511-513) call `.some` on it and throw, and the catch answers 500 | a private document of alice; bob, who is not its owner and not an admin, asks for it or its versions | a `collaborators: [ObjectId ref User]` path defaulting to [], so outsiders get 403 and collaborators get in | not executed | DocsController.CollaboratorGetsServerError | DocsController.SharedUserGetsIn |
