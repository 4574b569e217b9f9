# Reactor Cloud, modelled and proved in Dafny

This project models the parts of Reactor Cloud in which most can go wrong and proves what
they are for.

**The policy language** (`reactor-policy`). A policy is parsed from text, evaluated against
the context of a request, and compiled with other policies into one decision, usually a
fragment of SQL text for a WHERE clause. The model follows text all the way:

- `Grammar` gives the grammar as functions on text, `PolicyParser` the parser object that
  moves a position over its input. `PolicyPrinter` and `ParserRange` prove the round trip
  and the exact range of the parser.
- `Sentences` is a second grammar, which only says which sequences of tokens are sentences and
  for which tree. `SentencesParse` proves that the parser accepts exactly these, for all texts.
- `Tokens` proves that the grammar sees nothing of a text but its tokens, `Spellings` that
  white space, `!=` for `<>` and the case of keywords therefore never matter, and `Forms`
  what each form of the language must be written like, letter by letter, with its errors.
- `Semantics` is an independent reference: what a policy means in three-valued logic, for
  any database (column values, functions, comparison and arithmetic are parameters of a
  `Row`) and any request (the user's role included, which evaluation is never given).
- `Reading`, `Atoms` and `Pieces` prove that every text that is emitted is read as one
  expression whatever stands around it. The reader of emitted text is the same grammar in
  the dialect `EmittedSql`, where a primary may also be a double-quoted column.
- `BuiltinMeanings` spells out what the auth builtins mean and emit, and the truth tables.
- `PolicyEval`, `ResidualText` and `PolicyMeaning` prove that evaluation keeps meaning
  wherever it loses nothing. `MeaningLimits` and `ReadOnce` show exactly where it does, and
  `Ink` exactly when the emitted text can be read back. `PolicyTyping` gives a static check for the
  premise that a policy has a value.
- `FewestParentheses` proves that the printer writes no parentheses in vain.
- `FailSafe` proves what a loss can and cannot do to a decision.
- `PolicyCompile` and `PolicyMonotone` prove that the decision on many policies, read back
  from its text, lets through exactly the rows it should. `DecisionCases` tells how it comes
  out, reasons included.

**Protocols**, each with an invariant over all runs: leader election by advisory locks over
connection pools (`LeaderElection`), the leased work queue (`LeaseQueue`), the debounced
gateway sync loop (`SyncLoop`) with rollback (`ConfigSnapshot`) and route generation
(`GatewayRouting`), organisation membership (`Membership`). `Deliveries`, `SyncProgress`
and `Invitations` are theorems over whole runs of the queue, the sync loop and the auth
service, told from the history of a run. The code's methods are classes beside the machines: the methods of `Cluster`, `PostgresQueue` and `AuthService` are proved
to make steps of theirs, what `SnapshotManager` does with a table is a step of the sync
loop's (`SyncLoop.ManagerMakesFinish`), and `RunLoop` is the loop itself.

**Loops**: the event stream of the chat client (`SseStream`) and its retries (`RetryLoop`).

Where code and comments disagree the model follows the code:

- `leader.rs:37-39` speaks of a dedicated connection for each lock, held until its release.
  Lock and unlock each use any pooled connection, and the map has one key for a task however
  often its lock was taken. So a lock can leak: by an unlock on another session
  (`LeaderElection.ReleaseOnOtherSessionLeaks`), by acquiring a task twice
  (`AcquiringTwiceLeaks`) or by a call that fails half-way. `LeakGrowsIff` proves that there is
  no other way, and `LeaksNeverHeal` and `LeakExcludesOthers` what follows.
- `queue.rs:39` says that items are invisible for the visibility timeout. Nothing ends a
  lease when the timeout is over (`LeaseQueue.LeaseOutlivesTimeout`).
- `sync.rs:32` names a maximum wait before a forced sync. It has no effect on any run
  (`SyncLoop.MaxWaitHasNoEffect`): every message restarts the timer, so a sync can be put off
  without bound (`ChangesPostponeSync`). The promise is kept exactly where the changes leave a
  gap that begins early enough (`MaxWaitKeptIff`).

Premises that the code forces. Each can be computed before a call:

- Ids contain no quote (`IdsHaveNoQuote`; exact by `MeaningLimits.UnescapedReadsBackIff`).
- The policy is one that policy text can denote (`Printable`; exact by
  `ParserRange.ParserRangeIsPrintable`).
- Nothing is lost (`NothingLost`): once the context has decided what it can, no function
  call, no `auth.role()` of a user who has a role, no permission other than a literal and no
  argument of a domain builtin is left. Evaluation puts a constant of its own in the place of
  these. The condition is exact for the text (`MeaningLimits.ReadsAsPolicyIff`). It is exact
  for the meaning over all rows of a single call (`CallKeptIff`, `PermissionKeptIff`,
  `DomainArgumentsKeptIff`) and of whole policies in which every test counts
  (`ReadOnce.ReadOnceKeptIff`). Elsewhere it is sufficient only: a dropped call may stand
  where its value makes no difference (`DroppedButKept`). `Faithful` gives `NothingLost` for
  every context at once.
- No minus on a folded boolean is left (`Emittable`; exact by `Ink.ReadsBackIff`). A policy
  that has a value never leaves one.

## Model

| member | source | states |
|---|---|---|
| PolicyParser.ParsePolicyExpr | crates/reactor-policy/src/grammar.rs:35-48 | The whole parser run computes the grammar's reading of the input, errors included; nothing but space may be left over. It terminates on every input. What that reading is for each spelling is fixed by the rows on `Spellings` and `Forms`. |
| PolicyParser.Parser.ParseOrExpr | crates/reactor-policy/src/grammar.rs:64-78 | The OR loop over a moving position reads what the grammar reads, left-associatively, and never moves back or past the end. |
| PolicyParser.Parser.ParseAndExpr | crates/reactor-policy/src/grammar.rs:80-94 | The same for AND. |
| PolicyParser.Parser.ParseNotExpr | crates/reactor-policy/src/grammar.rs:96-104 | The same for prefix NOT. |
| PolicyParser.Parser.ParseComparison | crates/reactor-policy/src/grammar.rs:106-148 | The same for IS [NOT] NULL, [NOT] IN and comparisons, with their errors. |
| PolicyParser.Parser.TryParseComparisonOp | crates/reactor-policy/src/grammar.rs:150-184 | The operator found and the text left over, two-character operators first: `!=` and `<>` are not-equal, and so on for each sign. |
| PolicyParser.Parser.ParsePrimary | crates/reactor-policy/src/grammar.rs:186-228 | The same for parentheses, minus, literals and names. |
| PolicyParser.Parser.ParseStringLiteral | crates/reactor-policy/src/grammar.rs:230-257 | The scan of a string with doubled quotes. |
| PolicyParser.Parser.ParseNumber | crates/reactor-policy/src/grammar.rs:259-287 | The longest number, as an integer within 64 bits, a float spelling or an error. |
| PolicyParser.Parser.ParseIdentifierOrCall | crates/reactor-policy/src/grammar.rs:289-354 | Columns, auth builtins with their arity check, domain builtins and generic calls. |
| PolicyParser.Parser.ParseIdentifier | crates/reactor-policy/src/grammar.rs:356-383 | The longest identifier after space. |
| PolicyParser.Parser.ParseArgs | crates/reactor-policy/src/grammar.rs:385-413 | Argument lists of whole expressions. |
| PolicyParser.Parser.ParseList | crates/reactor-policy/src/grammar.rs:415-451 | IN lists of primaries. |
| PolicyParser.Parser.MatchKeyword | crates/reactor-policy/src/grammar.rs:491-514 | A keyword in any case that is not the start of a longer identifier. |
| Grammar.ParseOr | crates/reactor-policy/src/grammar.rs:60-78 | A successful reading consumes text. |
| SentencesParse.ParsesIff | crates/reactor-policy/src/grammar.rs:35-514 | For every text and tree: the text is parsed to the tree if and only if its tokens are a sentence for the tree by an independent grammar, which gives each operator, keyword, literal, call and list with its place. The parser rejects everything else. |
| Sentences.ParsedIsSentence | crates/reactor-policy/src/grammar.rs:35-514 | One half of it, by induction over the parser's functions: nothing is accepted that is no sentence. |
| SentencesParse.DisjunctionParses | crates/reactor-policy/src/grammar.rs:64-104 | The other half, by induction over sentences, in front of every token that can follow: no sentence is rejected or grouped otherwise. |
| Tokens.TokensDecide | crates/reactor-policy/src/grammar.rs:60-514 | Two texts with the same tokens are both rejected, or are read as the same tree (up to the case of reserved words that serve as names). Tokens know neither white space nor which of the two signs for not-equal was written. |
| Spellings.NotEqualSpelled | crates/reactor-policy/src/grammar.rs:160-162 | At any place of any text, outside strings, `!=` and `<>` may be exchanged, with or without space around them. |
| Spellings.BlankSpelled | crates/reactor-policy/src/grammar.rs:453-461 | Outside strings space, tab, newline, carriage return, vertical tab and form feed, in any number, may stand for each other; they may be left out at both ends and before punctuation. |
| Spellings.PunctuationSpaced | crates/reactor-policy/src/grammar.rs:453-461 | They may be left out after parentheses, commas and minus signs. |
| Spellings.KeywordSpelled | crates/reactor-policy/src/grammar.rs:491-514 | Outside strings each of the ten keywords may be written in any case. |
| Spellings.ClosedIffQuotesEven | crates/reactor-policy/src/grammar.rs:230-257 | A place in a policy is outside strings if and only if an even number of single quotes stands before it. |
| Forms.ComparisonForms | crates/reactor-policy/src/grammar.rs:150-184 | Between any two primaries, and before any text that may follow a comparison, each of the ten spellings is read as its operator: `=`, `<>`, `!=`, `<`, `<=`, `>`, `>=`, LIKE, ILIKE. |
| Forms.Precedence | crates/reactor-policy/src/grammar.rs:64-104 | Tests without parentheses group by NOT, then AND, then OR, each to the left. |
| Forms.TestForms | crates/reactor-policy/src/grammar.rs:106-126 | IS NULL, IS NOT NULL, a minus and parentheses around any primary. |
| Forms.ListForms | crates/reactor-policy/src/grammar.rs:415-451 | IN and NOT IN over none, one and two items, in their order. |
| Forms.ColumnForm | crates/reactor-policy/src/grammar.rs:356-383 | A name of letters, digits and underscores is a column unless it spells TRUE, FALSE, NULL or NOT. |
| Forms.DottedForms | crates/reactor-policy/src/grammar.rs:294-338 | Two names with a dot: a domain builtin after object, bucket, row, table and connect in any case, else a column of a table. |
| Forms.ThirdPartForgotten | crates/reactor-policy/src/grammar.rs:327-332 | `a.b.c` is read as the column `a.b`. |
| Forms.CallForm | crates/reactor-policy/src/grammar.rs:341-350 | A name before parentheses is a generic call with its arguments in order. |
| Forms.DomainCallForm | crates/reactor-policy/src/grammar.rs:316-325 | A domain builtin takes any arguments. |
| Forms.AuthForms | crates/reactor-policy/src/builtins.rs:54-127 | The six auth builtins without arguments and the two with one; an unknown name and a wrong number of arguments are errors of their own, with the number expected and the number given. |
| Forms.StringForms | crates/reactor-policy/src/grammar.rs:230-257 | Text between quotes; two quotes inside stand for one. |
| Forms.NumberForms | crates/reactor-policy/src/grammar.rs:259-287 | Integers are decimal, up to 9223372036854775807 and not beyond. |
| Forms.ErrorsAfter | crates/reactor-policy/src/grammar.rs:106-148 | What is reported after a complete primary: an open parenthesis, IS without NULL, NOT without IN, text left over with its first twenty characters. |
| Forms.ErrorsAtStart | crates/reactor-policy/src/grammar.rs:230-312 | What is reported for an open string, an auth builtin that is not called, and an empty text. |
| PolicyPrinter.RoundTrip | crates/reactor-policy/src/grammar.rs:35-514 | Printing any tree that policy text can denote and parsing the text gives back exactly that tree. |
| FewestParentheses.ParenthesesNeeded | crates/reactor-policy/src/grammar.rs:60-228 | The printer adds parentheses only where the grammar level would not read the text without them as that tree, whatever follows. |
| PolicyPrinter.PrintedReads | crates/reactor-policy/src/grammar.rs:64-228 | The same for every grammar level and in front of every text that can follow. |
| ParserRange.ParsePrintParse | crates/reactor-policy/src/grammar.rs:35-514 | Whatever parses also prints, and parses again to the same tree. |
| ParserRange.ParserRangeIsPrintable | crates/reactor-policy/src/grammar.rs:35-514 | A tree is the meaning of some policy text if and only if it is printable: names that are keywords, out-of-range numbers and subqueries are exactly what is excluded. |
| ParserRange.PrimaryRange | crates/reactor-policy/src/grammar.rs:186-228 | At a primary the word NOT is an ordinary name; elsewhere it never is. |
| Pieces.BinaryPiece | crates/reactor-policy/src/eval.rs:231-245 | Two pieces of text joined by an operator in parentheses are read as that operation on what the pieces are read as, whatever follows. |
| Pieces.ChainPiece | crates/reactor-policy/src/compile.rs:161-211 | Any number of pieces joined by OR or AND as text keep their grouping. |
| ResidualText.EvaluationShows | crates/reactor-policy/src/eval.rs:35-299 | Unless a minus on a folded boolean or a float is left, evaluation yields the specialised policy: a constant, or text that is uniquely read as its tree. |
| Ink.ReadsBackIff | crates/reactor-policy/src/eval.rs:248-257 | Without floats, emitted text is read back as the specialised tree if and only if no minus on a folded boolean is left in it. |
| Ink.ParseInk | crates/reactor-policy/src/grammar.rs:35-514 | A tree read from text never needs more letters E than the text has, which is why text with a bare minus cannot be read as its tree. |
| ResidualText.EmittedTextIsPolicyText | crates/reactor-policy/src/eval.rs:35-299 | Without columns the policy parser itself reads the residual text as the specialised tree, with any number of quotes in strings. |
| PolicyMeaning.FoldMeans | crates/reactor-policy/src/eval.rs:189-299 | Folding that leaves in place what it cannot decide keeps the three-valued value of every policy. |
| PolicyMeaning.NothingLostIff | crates/reactor-policy/src/eval.rs:101-187 | What evaluation leaves is the folded policy if and only if it reaches nothing that it has to drop. |
| PolicyMeaning.SpecializeMeans | crates/reactor-policy/src/eval.rs:189-299 | Where nothing is lost, specialising keeps the value of the policy, and a policy that has a value never leaves a minus on a constant. |
| PolicyMeaning.EvaluationKeepsMeaning | crates/reactor-policy/src/eval.rs:35-299 | For every policy of which nothing is lost, every context and row on which it has a value, a constant result is that value, and residual text read back as SQL has the same value: TRUE, FALSE, unknown or other. |
| PolicyMeaning.StoredPolicyKeepsMeaning | crates/reactor-policy/src/grammar.rs:35-48 | The same from policy text, through parsing and evaluation. |
| PolicyMeaning.FaithfulLosesNothing | crates/reactor-policy/src/eval.rs:101-187 | A policy that calls only auth builtins that evaluation decides loses nothing in any context. |
| PolicyMeaning.EmittedTextIsFinal | crates/reactor-policy/src/eval.rs:189-274 | Residual text read back and evaluated again, under any context, comes out unchanged: nothing foldable is left. |
| MeaningLimits.ReadsAsPolicyIff | crates/reactor-policy/src/eval.rs:35-187 | Text that can be read back is read as the folded policy if and only if nothing is lost. |
| MeaningLimits.CallKeptIff | crates/reactor-policy/src/eval.rs:101-187 | A call other than auth.has_permission and auth.in_org, which have lemmas of their own, keeps its meaning over all rows if and only if it is an auth builtin with the right number of arguments, and not the role of a user who has one: a function of the database never does. |
| MeaningLimits.InOrgKeptIff | crates/reactor-policy/src/eval.rs:137-159 | auth.in_org of a single value keeps its meaning over all rows if and only if there is no active organisation or nothing of its argument is lost. |
| MeaningLimits.FunctionIsForgotten | crates/reactor-policy/src/grammar.rs:341-350 | A witness: `lower(name) = 'ann'` parses, is emitted as a comparison with NULL, and is unknown on every row. |
| ReadOnce.ReadOnceKeptIff | crates/reactor-policy/src/eval.rs:35-187 | Where no column or function is tested twice, a policy keeps its meaning over all rows if and only if it reaches no function of the database; otherwise some row on which it is TRUE is lost. |
| MeaningLimits.DroppedButKept | crates/reactor-policy/src/eval.rs:182-186 | A witness that a dropped call may make no difference to the policy around it. |
| MeaningLimits.PermissionKeptIff | crates/reactor-policy/src/eval.rs:124-135 | has_permission keeps its meaning over all rows if and only if it asks about a string literal, or about a text of the context that is not granted: never about a column or a function. |
| MeaningLimits.PermissionOfEmailDenied | crates/reactor-policy/src/eval.rs:124-135 | A witness: a user who holds every permission is denied one that is named by an expression. |
| MeaningLimits.DomainArgumentsKeptIff | crates/reactor-policy/src/eval.rs:50-53 | A domain builtin keeps its meaning over all rows if and only if it has no arguments. |
| MeaningLimits.BareMinusAlone | crates/reactor-policy/src/eval.rs:253-255 | A minus on a folded boolean becomes a bare minus sign; as a whole policy it does not parse. |
| MeaningLimits.BareMinusMisread | crates/reactor-policy/src/eval.rs:253-255 | A witness: `-TRUE IN (1)` parses, and its emitted text is misread as minus a function named IN. |
| MeaningLimits.UnescapedReadsBackIff | crates/reactor-policy/src/eval.rs:103-117 | An id put between quotes without escaping is read back as that id if and only if it contains no quote. |
| BuiltinMeanings.IdsEndToEnd | crates/reactor-policy/src/eval.rs:103-117 | From policy text to value: `auth.user_id()`, `auth.org_id()` and `auth.session_id()` parse to the call, are emitted as the request's id between quotes or as NULL, and that text is read back with the value that the call means. |
| BuiltinMeanings.EmittedForEmail | crates/reactor-policy/src/eval.rs:161-167 | The email between quotes, a quote in it doubled. |
| BuiltinMeanings.AuthenticatedIffUser | crates/reactor-policy/src/context.rs:34-37 | `auth.is_authenticated()` and `auth.user_id() IS NOT NULL` have the same value in every context. |
| BuiltinMeanings.PermissionDecided | crates/reactor-policy/src/eval.rs:124-135 | has_permission on a literal is TRUE, at once, if and only if `*` is held or the permission with some of its words replaced by `*`, and else FALSE. |
| BuiltinMeanings.InOrgDecided | crates/reactor-policy/src/eval.rs:137-159 | in_org on a column compares it with the active organisation, by exactly this text; without one it is false. |
| BuiltinMeanings.AndOrTable | crates/reactor-policy/src/eval.rs:189-229 | The truth tables of AND and OR over TRUE, FALSE and NULL. |
| BuiltinMeanings.InTable | crates/reactor-policy/src/eval.rs:276-299 | IN is TRUE if some item is known to equal the value, FALSE if all are known to differ, else NULL; NOT IN is its negation. |
| PolicyTyping.TypedPoliciesHaveValues | crates/reactor-policy/src/eval.rs:35-89 | A policy that passes a static kind check has a value of that kind on every row that conforms to the schema. |
| PolicyCompile.CompileUsingPolicies | crates/reactor-policy/src/compile.rs:123-171 | The loop with its early exit: allow if some USING is constantly true, deny if all are false, else the residuals joined by OR. |
| PolicyCompile.CompileCheckPolicies | crates/reactor-policy/src/compile.rs:174-216 | The loop with its early return: deny with the name of the first constantly false CHECK, else the residuals joined by AND. |
| PolicyCompile.CompilePolicies | crates/reactor-policy/src/compile.rs:82-120 | Bypass, filtering and combination compute the specified decision. |
| DecisionCases.DecisionIs | crates/reactor-policy/src/compile.rs:82-256 | Unless the bypass applies: denied if and only if all USING are constantly false or some CHECK is, with the reason of the first of these in that order, the failing CHECK by name; allowed outright if and only if some USING is constantly true (or there is none) and every CHECK is. |
| PolicyCompile.DecisionReadsBack | crates/reactor-policy/src/compile.rs:82-256 | For any policies whose results have a truth value on the row: it passes the decision, taken as text and read back, if and only if the bypass applies or it passes the results, some USING (or there is none) and every CHECK. |
| PolicyCompile.DecisionIsCorrect | crates/reactor-policy/src/compile.rs:82-256 | For policies of which nothing is lost: a row passes the decision if and only if the bypass applies, or some USING is TRUE on it (or there is none) and every CHECK is TRUE on it; the fragment is taken as text and read back. |
| PolicyCompile.CombinedStands | crates/reactor-policy/src/compile.rs:219-256 | Combining two decisions is the conjunction of what they stand for, also when both are text. |
| PolicyCompile.ResidualsTest | crates/reactor-policy/src/compile.rs:127-199 | Constants and residuals together decide "some policy holds" and "all policies hold". |
| PolicyMonotone.PermissionsNeverRevoke | crates/reactor-policy/src/compile.rs:82-256 | If permissions are only asked about as literals under AND and OR, more permissions never turn an admitted row into a rejected one, through evaluation, compilation and bypass, whatever evaluation drops. |
| PolicyMonotone.TypedPermissionsNeverRevoke | crates/reactor-policy/src/compile.rs:82-256 | The same for all rows that conform to a schema, with static checks of the policies as the only premise. |
| PolicyMonotone.ResultGrows | crates/reactor-policy/src/eval.rs:189-245 | The result of such a policy grows with the permissions from FALSE over NULL to TRUE. |
| PolicyTyping.ResultsHaveKinds | crates/reactor-policy/src/eval.rs:35-299 | What evaluation leaves of a policy that passes the kind check for results has a value of its kind, for whoever reads it. |
| PolicyTyping.TypedPoliciesHaveResults | crates/reactor-policy/src/eval.rs:35-299 | A policy that passes the kind check for meanings, and calls no function by the name of an auth builtin, passes the one for results. |
| FailSafe.ResultIsValueOrNull | crates/reactor-policy/src/eval.rs:101-299 | Where functions of the database and the role are dropped, and not under IS NULL, the result of a policy is the policy's value or NULL. |
| FailSafe.NeverAdmitsMore | crates/reactor-policy/src/compile.rs:82-256 | A decision on such policies never admits a row that the policies reject. |
| FailSafe.NullTestAdmits | crates/reactor-policy/src/eval.rs:260-274 | A witness that under IS NULL a dropped call does: the test is TRUE on every row. |
| PolicyMonotone.NegatedPermissionRevokes | crates/reactor-policy/src/eval.rs:247-252 | Under NOT a granted permission does take rows away. |
| PolicyMonotone.TypedPoliciesAreSound | crates/reactor-policy/src/compile.rs:82-120 | The premises about single policies follow from static checks. |
| PolicyContext.HasPermission | crates/reactor-policy/src/context.rs:94-106 | The loop answers whether `*` is held, or a pattern that the permission becomes when some of its words are replaced by `*`. |
| PolicyContext.MatchesPermissionPattern | crates/reactor-policy/src/context.rs:118-133 | The loop decides whether the pattern is the permission with some words, any of them, replaced by `*`. |
| PolicyContext.WildcardGrants | crates/reactor-policy/src/context.rs:118-133 | Holding a permission with any one word replaced by `*`, the last one included, grants the permission. |
| PolicyContext.GrantedIff | crates/reactor-policy/src/context.rs:94-133 | A permission is granted if and only if `*` is held or some generalisation of it; every permission text has such words. |
| PolicyContext.ThreeWords | crates/reactor-policy/src/context.rs:140-157 | The same as written: `a:b:*`, `a:*:c` and `*:b:c` grant `a:b:c`, and `a:b:c` alone grants no other last or first word. |
| PolicyContext.EverythingIff | crates/reactor-policy/src/context.rs:94-106 | The permission `*` is granted if and only if the pattern `*` is held, and then everything is. |
| PolicyContext.PrefixForms | crates/reactor-auth/src/service.rs:1396-1406 | The service's patterns as written: `*`, a text followed by `:*`, and any other text. |
| PolicyContext.SegmentMatchTransitive | crates/reactor-policy/src/context.rs:118-133 | Segment matching is transitive at string level. |
| PolicyContext.GrantsTransitive | crates/reactor-policy/src/context.rs:94-106 | What a granted permission grants is granted too. |
| PolicyContext.PrefixMatchTransitive | crates/reactor-auth/src/service.rs:1396-1406 | Prefix matching is transitive at string level. |
| PolicyContext.SegmentImpliesPrefixIff | crates/reactor-auth/src/service.rs:1396-1406 | Everything the policy matcher grants for a pattern the auth service grants too, if and only if the pattern has no wildcard before its last segment. |
| SseStream.ParseSseStream | crates/reactor-client/src/ai.rs:232-277 | Whatever the chunks, the payloads are those of the whole text split at once, filtered and cut at DONE; the retained buffer is what follows the last newline; each failed chunk is one error event. |
| SseStream.LinesCompose | crates/reactor-client/src/ai.rs:251-255 | Splitting text that arrives in two parts equals splitting the whole. |
| SseStream.PayloadsOnlyGrow | crates/reactor-client/src/ai.rs:241-277 | More chunks only append payloads, and none after DONE. |
| SseStream.FramedPayloadsComeBack | crates/reactor-client/src/ai.rs:257-272 | A stream framed as data events and closed by DONE yields exactly the payloads that were framed. |
| SseStream.NoiseAndLineEndsIgnored | crates/reactor-client/src/ai.rs:251-272 | Blank lines, comments and other fields between the data lines, and CRLF line ends, change no payload and finish nothing; what comes out is what the lines spell out up to DONE. |
| SseStream.DataWithoutSpaceIgnored | crates/reactor-client/src/ai.rs:261 | A line `data:x` without the space is passed over. |
| RetryLoop.RequestWithRetry | crates/reactor-client/src/http.rs:257-313 | POST and PATCH are sent once without a wait; GET, PUT and DELETE up to retries + 1 times, all of them if every answer may be retried; the result is the last answer; the waits add up exactly; the trailing unknown error is never returned. |
| RetryLoop.DelaysFitIff | crates/reactor-client/src/http.rs:271-273 | No delay overflows 64 bits if and only if at most 58 retries are configured. |
| LeaderElection.AtMostOneLeader | crates/reactor-cache/src/leader.rs:59-198 | In every reachable state of all interleavings, with connection errors and crashes, at most one process is leader of the tasks of a lock, as long as no session closes with that lock while its process claims it. |
| LeaderElection.CloseKeepsInvIff | crates/reactor-cache/src/leader.rs:59-198 | Closing a session keeps the invariant if and only if none of its locks is claimed; a session that holds only what has leaked may close. |
| LeaderElection.StepKeepsInv | crates/reactor-cache/src/leader.rs:59-198 | Every other step keeps, lock by lock: held keys plus calls in progress never exceed the counts of the lock that a session of the process holds. |
| LeaderElection.UnlockWorksIff | crates/reactor-cache/src/leader.rs:188-194 | An unlock takes effect if and only if it runs on the session that holds the lock. |
| LeaderElection.LeaksNeverHeal | crates/reactor-cache/src/leader.rs:35-39 | What has leaked from a lock never comes back by any step other than the close of its own session or the crash of its process. |
| LeaderElection.LeakHealsIff | crates/reactor-cache/src/leader.rs:35-39 | By one of these two it does, so that they are the exact exceptions. |
| LeaderElection.LeakExcludesOthers | crates/reactor-cache/src/leader.rs:35-39 | A leaked lock keeps every other process from leading its tasks in all runs in which its session stays open. |
| LeaderElection.LeakGrowsIff | crates/reactor-cache/src/leader.rs:59-198 | While its holder stays a lock leaks at exactly three kinds of step, by one count each: an unlock on another session, recording a task that is in the map already, and losing a lock in a call that fails. |
| LeaderElection.LeakedIsLeakCount | crates/reactor-cache/src/leader.rs:59-198 | Over all runs in which its holders stay, what a lock has leaked is the number of such steps. |
| LeaderElection.NothingLeaks | crates/reactor-cache/src/leader.rs:59-198 | In all runs without such a step nothing has leaked, crashes and unclaimed closes included. |
| LeaderElection.ReleaseOnOtherSessionLeaks | crates/reactor-cache/src/leader.rs:78-100 | A witness: one release on another pooled connection leaks the lock. |
| LeaderElection.AcquiringTwiceLeaks | crates/reactor-cache/src/leader.rs:59-100 | A witness: acquiring a task twice and releasing it once leaks the lock, with every unlock on the session that holds it. |
| LeaderElection.ClosingHolderBreaksExclusion | crates/reactor-cache/src/leader.rs:177-180 | From every state with a leader: if the session that holds its lock closes, any other process can become leader beside it in two steps. |
| LeaderElection.Cluster.TryAcquire | crates/reactor-cache/src/leader.rs:59-107 | Granted exactly when no other session holds the lock; the caller is leader; refused calls change nothing. |
| LeaderElection.Cluster.Release | crates/reactor-cache/src/leader.rs:182-197 | Removes the key and then unlocks once, on whichever session. |
| LeaseQueue.StepKeepsInv | crates/reactor-cache/src/postgres.rs:48-192 | Every statement of every client keeps the queue's invariant, with dequeues that lock rows first and update them later. |
| LeaseQueue.OneLeasePerItem | crates/reactor-cache/src/postgres.rs:77-126 | Over all interleavings an item is in at most one outstanding lease, and its row carries exactly that receipt. |
| LeaseQueue.ReceiptWorksIffOutstanding | crates/reactor-cache/src/postgres.rs:128-192 | A receipt is accepted if and only if it was handed out and neither acked nor nacked. |
| LeaseQueue.RetiredForEver | crates/reactor-cache/src/postgres.rs:128-192 | A receipt once acked or nacked stays so in every later state. |
| LeaseQueue.AttemptCountsDeliveries | crates/reactor-cache/src/postgres.rs:99-105 | `attempt` is the number of deliveries of the item. |
| LeaseQueue.ItemsConserved | crates/reactor-cache/src/postgres.rs:48-208 | Enqueued items are the acked ones and the rows present, each once. |
| LeaseQueue.LeaseOutlivesTimeout | crates/reactor-cache/src/queue.rs:37-46 | A leased row changes if and only if its own receipt is acked or nacked, whatever the clock says; no dequeue picks it. |
| LeaseQueue.QueueLenBalances | crates/reactor-cache/src/postgres.rs:194-207 | After any run the length of a queue is the number of items enqueued into it less those acked from it; leases, timeouts and nacks do not change it. |
| Deliveries.DequeueTakes | crates/reactor-cache/src/postgres.rs:87-99 | Over all legal runs: a dequeue takes rows of its queue that are due, without a receipt and not being taken, at most as many as asked for, the oldest ones, and all of them if they are fewer. |
| Deliveries.NeverEarly | crates/reactor-cache/src/postgres.rs:92-94 | No item is taken before the time given by its enqueue, or by the last nack that worked on it, or for another queue than its own. |
| Deliveries.DeliveredAsPosted | crates/reactor-cache/src/postgres.rs:87-126 | A dequeue that commits leases exactly the rows it locked, each with the queue and data it was posted with, one attempt more, a new outstanding receipt, invisible until the given time; no other row changes. |
| LeaseQueue.PostgresQueue.Enqueue | crates/reactor-cache/src/postgres.rs:48-75 | Adds one row under a fresh id. |
| LeaseQueue.PostgresQueue.Dequeue | crates/reactor-cache/src/postgres.rs:77-126 | Leases only rows of the queue that are due, unleased and not locked, the oldest ones up to the limit, under fresh receipts, and changes no other row. |
| LeaseQueue.PostgresQueue.Ack | crates/reactor-cache/src/postgres.rs:128-145 | Deletes exactly the row that holds the receipt, or refuses. |
| LeaseQueue.PostgresQueue.Nack | crates/reactor-cache/src/postgres.rs:147-192 | Frees exactly the row that holds the receipt, or refuses. |
| GatewayRouting.RoutingTable.FromRoutes | crates/reactor-gateway/src/routing.rs:277-281 | The last route given for a host is filed under it, and nothing else. |
| GatewayRouting.RoutingTable.Upsert | crates/reactor-gateway/src/routing.rs:288-291 | Replaces exactly the entry of the route's host. |
| GatewayRouting.RoutingTable.Remove | crates/reactor-gateway/src/routing.rs:293-296 | Removes exactly the entry of the host and returns it. |
| GatewayRouting.BuildRoutes | crates/reactor-gateway/src/caddy_admin.rs:300-334 | The loop builds one route for each entry in iteration order, then the default route. |
| GatewayRouting.ServedRequestReachesItsProject | crates/reactor-gateway/src/caddy_admin.rs:337-366 | A request that an entry takes (the host's own, or the one for `*` where that comes first) reaches the backend of that entry, under its project and no other; a limiter comes first if one is configured above zero, for every kind of backend or only for shared ones as configured. |
| GatewayRouting.RoutesRefineTable | crates/reactor-gateway/src/caddy_admin.rs:300-366 | For every table and iteration order the first matching route for a host is the one its enabled entry asks for, else the default backend, if and only if no enabled `*` entry comes first. |
| GatewayRouting.RightInEveryOrderIff | crates/reactor-gateway/src/caddy_admin.rs:300-366 | So it is in every iteration order if and only if the table serves no `*`, or the host is `*`. |
| GatewayRouting.UnknownHostGoesToDefaultIff | crates/reactor-gateway/src/caddy_admin.rs:313-331 | A host without an entry gets the default if and only if the table serves no host spelled `*`. |
| GatewayRouting.UnservedRequestGetsDefault | crates/reactor-gateway/src/caddy_admin.rs:317-331 | A request that no enabled entry takes ends at the default backend, without a project and without a limiter, or nowhere. |
| ConfigSnapshot.SnapshotManager.Apply | crates/reactor-gateway/src/snapshot.rs:57-89 | Nothing changes if the configuration cannot be built. Success: it is live and last good. Load error: the unchanged last good one is live. Rollback failure: last good is unchanged after exactly three more loads, or there was none. |
| ConfigSnapshot.SnapshotManager.Rollback | crates/reactor-gateway/src/snapshot.rs:92-138 | Its outcomes and the number of loads they took; the error after the loop is never returned. |
| SyncLoop.NoLostUpdate | crates/reactor-gateway/src/sync.rs:84-168 | In every reachable state in which the loop runs, nothing is in flight and no change is pending, Caddy runs the routes of the store as it is now. |
| SyncLoop.QuiescentGatewayServesStore | crates/reactor-gateway/src/sync.rs:147-168 | In such a state a request goes where the store says if and only if no enabled `*` entry comes first. |
| SyncLoop.PendingTimerSyncs | crates/reactor-gateway/src/sync.rs:120-139 | When the timer fires a sync is attempted if and only if a change is pending. |
| SyncLoop.StepKeepsInv | crates/reactor-gateway/src/sync.rs:84-168 | Every step keeps: a difference between the store and what runs is pending, queued or still to be announced. |
| SyncLoop.ManagerMakesFinish | crates/reactor-gateway/src/sync.rs:147-168 | Each way in which the snapshot manager can end is a Finish step of the machine, with the same last good table and the same routes live. |
| SyncLoop.MaxWaitHasNoEffect | crates/reactor-gateway/src/sync.rs:120-126 | The loop has exactly the same runs whatever the maximum wait is. |
| SyncLoop.SyncBetweenChanges | crates/reactor-gateway/src/sync.rs:87-141 | Between the first and the last of any changes a sync is attempted if two in a row are further apart than the debounce interval, and only if two are that far apart. |
| SyncLoop.SyncComesAtFirstGap | crates/reactor-gateway/src/sync.rs:87-141 | The first attempt comes a debounce interval after the first change that nothing follows for so long. |
| SyncLoop.MaxWaitKeptIff | crates/reactor-gateway/src/sync.rs:32-33 | A change waits no longer than the maximum wait if and only if such a gap begins early enough. |
| SyncLoop.AttemptsShift | crates/reactor-gateway/src/sync.rs:127-138 | The loop counts an attempted sync if and only if one of these comes. |
| SyncLoop.ChangesPostponeSync | crates/reactor-gateway/src/sync.rs:32-33 | Changes that keep coming within the debounce interval put a sync off for any number of rounds. |
| SyncLoop.MaxWaitExceeded | crates/reactor-gateway/src/sync.rs:38-46 | With the default timing eleven such changes already exceed the maximum wait. |
| SyncLoop.RunLoop | crates/reactor-gateway/src/sync.rs:90-143 | The event loop's variables and its number of syncs are the fold of its turns. |
| SyncLoop.StepsAreTurns | crates/reactor-gateway/src/sync.rs:94-141 | The state machine's receive and timer steps are turns of the loop. |
| SyncLoop.SyncIsOneTurn | crates/reactor-gateway/src/sync.rs:127-138 | Load and apply together are one turn of the loop. |
| SyncProgress.RunsCanCatchUp | crates/reactor-gateway/src/sync.rs:84-168 | No reachable state is a dead end: unless the loop was stopped or told to stop, a continuation without further changes and with successful syncs ends with the store's routes live. |
| SyncProgress.FailedSyncIsRetried | crates/reactor-gateway/src/sync.rs:127-138 | A failed sync leaves the change pending, and the timer is due again after exactly the debounce interval; a failed first sync ends the loop. |
| SyncProgress.EndsExactly | crates/reactor-gateway/src/sync.rs:102-107 | The loop ends if and only if a shutdown message or the closed channel is received. |
| SyncProgress.NoAttemptAfterEnd | crates/reactor-gateway/src/sync.rs:102-107 | No sync is attempted after that. |
| SyncProgress.StoppedForEver | crates/reactor-gateway/src/sync.rs:84-143 | A stopped loop stays stopped and changes nothing. |
| SyncProgress.ChannelBounded | crates/reactor-gateway/src/sync.rs:70 | In every reachable state at most a hundred messages are queued, and a sender waits exactly while there are a hundred. |
| Membership.OwnerAlwaysRemains | crates/reactor-auth/src/service.rs:549-1003 | Over all sequences of operations every organisation has a member whose role is named owner. |
| Membership.RolesBelongToTheirOrg | crates/reactor-auth/src/service.rs:549-1003 | Every member's role is a role of the organisation it is a member of. |
| Membership.LastOwnerIff | crates/reactor-auth/src/service.rs:841-866 | Removal is refused with LastOwner if and only if the member is the only owner. |
| Membership.RoleChangeEnds | crates/reactor-auth/src/service.rs:783-838 | How a change of role ends in any run: unknown member, foreign role, the only owner losing the role, or done; never an internal error. |
| Membership.ActiveOwnerKeptIff | crates/reactor-auth/src/service.rs:536-542 | An event leaves an organisation an owner who is not disabled if and only if it does not delete, remove or demote the only such owner and is not its creation by a disabled user. |
| Membership.ActiveOwnerRemains | crates/reactor-auth/src/service.rs:536-869 | Over all runs without such an event the organisation has an owner who is not disabled. |
| Membership.StepKeepsInv | crates/reactor-auth/src/service.rs:549-1003 | Every operation keeps the invariant of the store. |
| Membership.AuthService.CreateOrganization | crates/reactor-auth/src/service.rs:549-619 | The three system roles, and the creator as owner. |
| Membership.AuthService.UpdateMemberRole | crates/reactor-auth/src/service.rs:783-838 | Exactly one membership changes, or a refusal in the order of the code's checks. |
| Membership.AuthService.RemoveMember | crates/reactor-auth/src/service.rs:841-869 | Exactly one membership goes, or a refusal. |
| Membership.AuthService.CreateInvitation | crates/reactor-auth/src/service.rs:876-939 | An invitation is only made for a role of the same organisation. |
| Membership.AuthService.AcceptInvitation | crates/reactor-auth/src/service.rs:956-1003 | Refused as not found exactly for an unknown or expired token; else makes the user of the address a member with the invited role and uses the invitation up, or changes nothing. |
| Invitations.OpenInvitationEnds | crates/reactor-auth/src/service.rs:956-1003 | Over all runs: an invitation that was made and not used since is honoured up to the moment it expires; it joins the user who signed up with the address, if not yet a member, with the invited role, and in every other case changes nothing. |
| Invitations.JoinsIff | crates/reactor-auth/src/service.rs:956-1003 | Accepting a token changes anything if and only if an open, unexpired invitation under it awaits its user. |
| Invitations.UsedOnce | crates/reactor-auth/src/service.rs:983 | A used token is not found until it is issued again. |
| Invitations.MadeIff | crates/reactor-auth/src/service.rs:876-939 | In any run an invitation is made if and only if the role is one of the organisation and the token is new. |

## Left out

- Non-ASCII text: the parser slices keywords at byte offsets and knows Unicode space; the model reads characters and ASCII space.
- Floats: a float literal is carried by its spelling. The parser and the round trip cover it, the theorems on evaluation ask for `FloatFree`, because `1.0` is emitted as `1`.
- Empty IN lists: the parser accepts `x IN ()`, and it is emitted as `("x" IN ())`, which a database rejects. The reader of emitted SQL in the model is the policy grammar, which accepts it, and an IN over nothing is false there.
- MeaningLimits.CallKeptIff: asks that the outermost function does not occur again in its own arguments; so do the three lemmas like it, on domain builtins, has_permission and in_org.
- MeaningLimits.InOrgKeptIff: is about a single value as the argument; an argument that is itself a test has a truth value or NULL, and NULL is all that in_org accepts of these.
- ReadOnce.ReadOnceKeptIff: covers tests of the form operand, operator, value that is not NULL, joined by AND, OR and NOT; other shapes have the sufficient condition only.
- SyncLoop.SyncBetweenChanges: is about runs whose timer is punctual; a timer that fires late can lose against a message.
- SyncLoop.MaxWaitKeptIff: asks that no two changes come exactly a debounce interval apart, where the timer and the message are ready together and either may be taken; `SyncBetweenChanges` covers both.
- Subqueries: the parser never makes one, and the SQL inside is opaque.
- The formatted text of error messages: errors are values with the data the text is made from, except where a decision's reason is part of the result.
- PolicyCompile.DecisionIsCorrect: asks for policies that have a truth value on the row, because a real database rejects a query with a type error as a whole; `PolicyMonotone.TypedPoliciesAreSound` gives this from static checks.
- LeaderElection.AtMostOneLeader: does not cover a connection that closes while its process still claims a lock that it holds; `ClosingHolderBreaksExclusion` shows that it cannot.
- LeaderElection.Cluster.Release: runs the two steps of a release in one go; the interleavings of its steps with other processes are in the state machine.
- The timed variant of acquiring a lock: it only repeats the plain one.
- LeaseQueue.PostgresQueue.Dequeue: the rows locked by others are a parameter; the locking itself is in the state machine.
- Membership.StepKeepsInv: each operation is one atomic step. In the code the owner count and the update that follows it are separate statements; the last-owner check is not protected against another request between them.
- Membership.AuthService.CreateOrganization: creating the organisation, its roles and the membership is one step, while the code makes several calls that can fail half-way.
- Custom roles: the service has no operation that creates one.
- The grouping of routes by backend in `build_routes`: it is computed and never used.
- Caddy's own host patterns: a route matches its exact host, and `*` matches every host.
- The key-value cache, HTTP routing and middleware, cryptography, mail, clients of other services: plumbing, or easy members.
