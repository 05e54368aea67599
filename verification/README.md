# Spacetime memories server — verified model

A Dafny model of the request handlers of a small Fastify/Prisma server for a
"memories" app. Users sign in with GitHub and receive a session token. They
then list, read, create, update and delete memories, which are records that
may be public or private. They can also upload an image or video to use as a
memory's cover.

The model has three modules, one per route file, and a small shared module:

- `Memories` (`memories.dfy`) models `src/routes/memories.ts`. The memory
  table is a class holding a `map` from id to `Memory`. Create, update and
  delete are methods that change that map. List and get are functions over
  it. The read rule is `isPublic || userId == sub` and the write rule is
  `userId == sub`. The list excerpt is a pure function.
- `Auth` (`auth.dfy`) models `src/routes/auth.ts` from the fetched GitHub
  profile onwards, its validation included. `Upsert` is find-or-create by
  GitHub id as a function.
  `UserTable.Register` is the handler as a method on the user table. `Sign`
  builds the token's claims, subject and lifetime. The token shape follows
  `src/auth.d.ts`.
- `Upload` (`upload.dfy`) models `src/routes/upload.ts`. It holds the
  hand-written equivalent of the mime-type regular expression
  `^(image|video)\/[a-zA-Z]+`, the stored file name, and the returned URL.
- `Common` (`common.dfy`) defines `Option` and the `Id` type.

Points of the code's behaviour that the model keeps as they are:

- Every `/memories` route runs behind the token-verifying pre-handler
  (`src/routes/memories.ts:7-9`), public memories included. The handlers
  therefore take the authenticated subject `sub` as a plain input, and the
  model has no anonymous caller.
- When two first logins race, the code does not retry the lookup. The model
  is sequential.
- A rejected id or body, and a missing row, are thrown errors in the code
  (the schema parse and `findUniqueOrThrow`). They are not explicit replies.
  The model names them `BadRequest` and `NotFound`. The HTTP status actually
  sent is chosen by the framework's error handler, which these files do not
  configure. Only the 401 is an explicit reply.

## Model

| member | source | states |
|---|---|---|
| `Memories.ParseBody` | src/routes/memories.ts:59-65 | A body is accepted iff `content` and `coverUrl` are present. Their values are copied. `isPublic` is true iff the body says true, so an omitted flag means private. |
| `Memories.PolicyTable` | src/routes/memories.ts:49-51 | The read/write decision table. Write implies read. A public row is readable by anyone. A private row is readable only by its owner. Write is allowed iff the caller owns the row. |
| `Memories.Excerpt` | src/routes/memories.ts:27 | The excerpt is a prefix of the content of length min(115, length), followed by "...". Its length is at most 118. |
| `Memories.ExcerptOfShortContent` | src/routes/memories.ts:27 | Content of 115 characters or fewer is shown whole, and "..." is still appended. |
| `Memories.ExcerptIgnoresTail` | src/routes/memories.ts:27 | For contents of at least 115 characters, two excerpts are equal iff the first 115 characters are equal. |
| `Memories.EarliestExists` | src/routes/memories.ts:18-20 | Every non-empty set of rows has a row whose `createAt` is not after any other's. The ordering needs this. |
| `Memories.SortedByCreateAt` | src/routes/memories.ts:14-21 | The query result is a permutation of the owned rows: same elements, same count, no duplicates. It is non-decreasing in `createAt`. |
| `Memories.ProjectionSound` | src/routes/memories.ts:23-30 | Every projected item is the summary of a stored row of `sub`. The projection keeps the order and the distinct ids. |
| `Memories.ProjectionComplete` | src/routes/memories.ts:14-17 | Every row owned by `sub` appears in the projection. |
| `Memories.MemoryTable.List` | src/routes/memories.ts:12-31 | GET /memories returns exactly the summaries of the caller's rows and never another user's row, even a public one. Ids are distinct and `createAt` is ascending. |
| `Memories.MemoryTable.Get` | src/routes/memories.ts:34-54 | A non-UUID id gives BadRequest. A missing id gives NotFound before the policy is applied. The result is 401 iff the row is private and owned by someone else. Otherwise the stored row is returned unchanged. |
| `Memories.MemoryTable.Create` | src/routes/memories.ts:57-76 | A bad body changes nothing. Otherwise exactly one row is added under the new id. It is owned by the caller and private unless `isPublic` is true. No existing row changes. |
| `Memories.MemoryTable.Update` | src/routes/memories.ts:79-119 | The checks run in order: id, body, existence, owner. A non-owner gets 401 and the table is unchanged. The owner's update rewrites only `content`, `coverUrl` and `isPublic` of that row, which becomes private when `isPublic` is omitted. It keeps `id`, `userId` and `createAt`, and every other row is untouched. |
| `Memories.MemoryTable.Delete` | src/routes/memories.ts:122-146 | A non-owner gets 401 and the table is unchanged. The owner's delete removes exactly that id and nothing else. |
| `Auth.ParseProfile` | src/routes/auth.ts:41-49 | A profile is accepted iff `id`, `login`, `name` and `avatar_url` are all present and the avatar passes the URL check. The accepted fields are copied unchanged. |
| `Auth.Upsert` | src/routes/auth.ts:52-68 | If a user with this GitHub id exists, that user is returned and the table is unchanged. Otherwise exactly one user is added, with the new id and with login, name and avatar copied from the profile. Stored users are never overwritten. |
| `Auth.UpsertKeepsWellKeyed` | src/routes/auth.ts:52-68 | Find-or-create with a fresh generated id keeps two things true: every user is stored under its GitHub id, and internal ids are unique. The returned user carries the profile's GitHub id. |
| `Auth.UpsertIdempotent` | src/routes/auth.ts:52-68 | A second registration with the same GitHub id returns the same user and the same table, even with newer profile data or another generated id. |
| `Auth.Sign` | src/routes/auth.ts:70-81 | The token's subject is the user's internal id. Its claims are the user's name and avatar. Its lifetime is 30 days (2592000 seconds). |
| `Auth.SignDecode` | src/auth.d.ts:6-10 | Decoding a token signed for a user gives the request user of that shape: the subject is the user's internal id and the private claims are exactly `name` and `avatarUrl`. The expiry, modelled by `ExpiresAt`, is 30 days after issue. |
| `Auth.SubjectIdentifiesUser` | src/routes/auth.ts:78 | In a well-keyed table, two users' tokens have the same subject iff they are the same user. |
| `Auth.UserTable.Register` | src/routes/auth.ts:41-85 | An invalid profile returns no token and leaves the table unchanged, so it aborts before lookup or creation. Otherwise the table and user are those of `Upsert`, and the token is signed for that user. The token's subject is the stored user's id, never the GitHub id. |
| `Upload.LetterRun` | src/routes/upload.ts:26 | The greedy `[a-zA-Z]*` run starting at a position. Every character in it is an ASCII letter, and the character after it is not one. |
| `Upload.IsValidFileFormat` | src/routes/upload.ts:26-27 | A mime type is accepted iff it starts with the literal `image/` or `video/`, followed by at least one ASCII letter. |
| `Upload.ValidIffSomePrefixMatches` | src/routes/upload.ts:26-27 | The test succeeds iff the regular expression matches some prefix of the text. |
| `Upload.AcceptedIsPrefixClosed` | src/routes/upload.ts:26 | The match is unanchored at the end: appending any text to an accepted type keeps it accepted. |
| `Upload.FirstSevenDecide` | src/routes/upload.ts:26 | Only the first seven characters decide acceptance. |
| `Upload.MimeExamples` | src/routes/upload.ts:26-32 | `image/svg+xml` is accepted. `IMAGE/png`, `audio/mpeg`, `image/` and `image/3gpp` are rejected: the match is case-sensitive and needs a letter right after the slash. |
| `Upload.FileName` | src/routes/upload.ts:34-37 | The stored name has the generated id as its prefix and the extension as its suffix. |
| `Upload.DistinctIdsDistinctNames` | src/routes/upload.ts:34-37 | Distinct ids of equal length (such as generated UUIDs) never yield the same stored name. |
| `Upload.HandleUpload` | src/routes/upload.ts:22-55 | A missing file or a rejected mime type gives 400, and no name is produced. Otherwise the name is id followed by extension. The URL path is `/uploads/` followed by that name, and the origin is `protocol://hostname`. |

## Left out

- The GitHub exchange (code for access token, then the profile fetch) is network I/O. Its JSON response is the input `RawProfile`, and a failed exchange is not modelled.
- JWT signing and verification are library cryptography. This covers the fixed secret, the signature and the expiry check. The memory handlers take the verified `sub`. A missing or invalid token, which the pre-handler rejects before any handler runs, is not modelled.
- The zod validators `uuid()` and `url()` are library code. They are the function parameters `isUuid` and `isUrl`.
- `Memories.ParseBody`: `z.coerce.boolean()` on non-boolean input follows JavaScript truthiness, so for example the string "false" becomes true. This is not modelled, because `isPublic` arrives as an optional boolean.
- `Auth.SignDecode`: `Decode` keeps only `sub`, `name` and `avatarUrl`. The verified payload also carries the `iat` and `exp` fields the signer adds; the model gives the expiry through `ExpiresAt` instead.
- `Auth.ParseProfile`: `z.number()` also accepts non-integer numbers, but the GitHub id is modelled as an integer.
- The database is replaced by in-memory maps. The generated memory id, user id and `createAt` are inputs. `Create` and `Register` require the generated id to be unused, which is what the database's UUID default provides.
- `Memories.MemoryTable.List` is a ghost function. It fixes only the order between rows with different `createAt`. The order among rows created at the same instant is left open, as with the database.
- `Memories.Excerpt` counts Dafny characters. JavaScript's `substring` counts UTF-16 code units, so text with surrogate pairs can be cut at a different point.
- `Upload.HandleUpload`: the URL is returned as an origin and a path. The string `new URL` would produce, with its percent-encoding and host normalisation, is not modelled.
- Streaming the upload to disk, `randomUUID` and `extname` are file I/O and Node library calls. The id and the extension are inputs. The 5 MB limit is enforced by the multipart library.
- `src/server.ts` (plugin registration, CORS, static files, `listen`) and `src/lib/prisma.ts` (client construction) are bootstrapping only.
- Concurrent requests are not modelled. This includes two first logins racing to create the same GitHub user, and a row changing between the lookup and the update or delete. The model is sequential.
