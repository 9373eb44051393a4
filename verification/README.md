# Verified models for the AI DBA Workbench

The Workbench watches PostgreSQL servers. What it stores, logs and shows passes through a layer of
hand-written code that takes credentials out of SQL statements, connection strings, shell commands
and error messages, and through a few small protocols (a worker pool, a client-side cache, a retention
scheduler) that have to be right under every interleaving. This project models that code in Dafny and
proves what it promises, for all inputs and all runs.

`dafny verify dfyconfig.toml` checks everything.

## How the project is laid out

Text is a `string` whose characters are the bytes of the Go string (code points in `SpanRedaction`).
A package that works with indexes and loops has two parts: a function of the text that says what is
computed, and methods with the source's loops, proved to compute that function. The theorems are about
the function, and so about the loops.

Words such as separator, key, name of a secret or white space are not left to the definitions that the methods share
with the specification. For each of them a module says in characters which texts it stands for, without calling that
definition, and proves that the two agree.

- `Text`: the string operations of the Go library that the code calls. `Splicing`: a text with a list of
  stretches replaced. `Spelling`: words in letters of either case. `SecretWords`: the names that tell of a secret.
- `SqlLexer`, `SqlRedact`: what the SQL lexer and the statement redactor compute.
  `SqlLexing`, `SqlRewriting`, `SqlTarget`: the loops that compute it.
  `SqlBoundary`, `SqlChain`: when a token stays the same token in another text, the local fact that
  everything about reading a changed statement rests on.
  `SqlGate`: the cheap check in front. `SqlEdits`: the edits of a statement. `SqlRelex`,
  `SqlApart`, `SqlFused`: a redacted statement, read again. `SqlHidden`, `SqlExposed`, `SqlValues`,
  `SqlParameters`: what becomes of secrets, values and parameters. `SqlIdempotence`, `SqlChanges`,
  `SqlVisible`, `SqlSettled`, `SqlMoves`, `SqlCalm`, `SqlStirs`: when redacting again changes something. `SqlConstants`:
  constants with another body. `SqlMarker`, `SqlMarkerText`: tagging. `SqlTokens`: the tokens of a text in characters.
  `SqlDecisions`, `SqlSecrets`, `SqlSecretTexts`: which tokens are replaced or dropped, in letters, and what becomes of
  a secret's value. `SqlExamples`, `SqlSetExample`, `SqlDollarExample`, `SqlMergeExample`, `SqlSecretExamples`: single
  statements.
- `ConnString`: what redacting a libpq connection string computes. `ConnStringScan`: the loops.
  `ConnStringLaws`, `ConnStringEscape`, `ConnStringPrint`: tokenizing and printing.
  `ConnStringMask`, `ConnStringGrowth`, `ConnStringKept`, `ConnStringTags`: what a redacted string looks
  like. `ConnStringClean`: the strings that stay as they are. `ConnStringRedaction`, `ConnStringUri`: when
  redacting again changes something. `ConnStringSplit`, `ConnStringBehind`: what a quote in a nested
  connection string does. `ConnStringGrammar`, `ConnStringSecrets`: which strings are rows of parameters, which
  are URIs, and which values are hidden, in letters. `ConnStringExamples`: single strings.
- `ShellCommand`, `ShellScan`: shell commands in PostgreSQL settings. `ShellSyntax`: their words, assignments and
  programs in characters.
- `CycleDetector`: the check for values that JSON cannot hold.
- `SpanRedaction`: secrets in an LLM provider's error message.
- `WorkerPool`, `ReasoningCache`, `RetentionSchedule`: protocols, as steps that may happen in any order.
- `LsnDiff`, `Scoring`: the generated LSN expression, and the verdict on one value.

## Where the code does not do what its comments say

- `RedactQuery` is called idempotent (pkg/sqlredact/redact.go:125-127). It is not: see
  `SqlExamples.NotIdempotent` for a constant that holds a connection string with a quoted password
  directly followed by the next key, and `SqlExamples.MergedNotIdempotent` for two constants whose
  replacements run together. `SqlStirs.RedactIdempotent` gives the exact condition on the statement,
  wherever rewritten dollar-quoted constants avoid their tags: no constant is rewritten again, read
  together with the placeholders directly behind it, and none comes to be read as the value of a name.
- A constant behind the name of a secret is said to be replaced (pkg/sqlredact/redact.go:22-31). Read again, a
  redacted statement can have another constant than the plain placeholder there: a placeholder
  directly behind `u&` is read together with it, as a constant with Unicode escapes
  (`SqlMergeExample.NotHidden`; its text is the placeholder's, so no value shows). `SqlExposed.GuardedExactly`
  says exactly when this happens: when a `u`, an `&` and a constant that is given up stand directly behind
  a name or a replaced value.
- The same lines promise that a constant behind a name is replaced in full. It is not if the name is a quoted
  identifier or a constant that is itself replaced as the value of another name: `SqlSecretExamples.NameReplaced` keeps
  the constant in `token = "token" 'x'`. `SqlSecrets.SecretHidden` proves that this is the only exception, and
  `SqlSecrets.TouchedExactly` which tokens are replaced or dropped, for every token of every statement.
- Parameters such as `$1` are said never to be touched (pkg/sqlredact/redact.go:39-41).
  `SqlSetExample.ParametersLost` is a SET command that loses two. A parameter survives if and only if it is
  in no SET command's value of more than one token and behind no edit that runs to the end of the text
  (`SqlParameters.ParameterSurvives`).
- A redacted body is said to fit between its dollar tags again (pkg/sqlredact/redact.go:317-319). It does
  not in `SqlDollarExample.TagBroughtIn`, where the value of a nested connection string is decoded and
  brings the tag in. It does if and only if the redacted body avoids the tag, and it avoids it whenever
  the values of nested connection strings do once decoded (`SqlConstants.RedactedDollarFits`).
- `RedactPasswords` is called idempotent (pkg/connstring/redact.go:53-56). It is not, neither on keyword
  strings (`ConnStringExamples.GluedExample`, `ConnStringExamples.NestedExample`) nor on URIs
  (`ConnStringExamples.LateAtExample`). `ConnStringRedaction.RedactIdempotent` gives the exact condition, for
  every string: on a URI, that hiding its passwords uncovers no user information; on a keyword string,
  that no password is glued to the next key, no nested connection string is itself unsettled, and none
  that shows a single quote leaves a password or a malformed rest behind that quote. `RedactValue`
  (pkg/pgsettings/redact.go:130-137) inherits this for `primary_conninfo`: `ShellScan.SettingIdempotent`.
- `EscapeValue` doubles a single quote (pkg/connstring/connstring.go:22-30), which the tokenizer, like
  libpq, does not read as an escape: `ConnStringPrint.BuildRoundTrip` shows that printing and tokenizing
  are inverse exactly when no value holds a single quote.
- `Stop` promises that no job is processed after it returns (pkg/worker/worker_pool.go:145-146). This
  needs `Start` to have finished first: `WorkerPool.NothingAfterStop`, and `WorkerPool.RunsAgain` for the
  exact condition without it.

## Model

| member | source | states |
|---|---|---|
| `SqlLexing.LexBlockComment` | pkg/sqlredact/redact.go:508-529 | a block comment ends where its nesting closes, or at the end of the text |
| `SqlLexing.LexString` | pkg/sqlredact/redact.go:533-552 | the token is the one the recursive reading of quotes, doubled quotes and backslash escapes finds |
| `SqlLexing.LexQuotedIdent` | pkg/sqlredact/redact.go:556-571 | the same for a quoted identifier |
| `SqlLexing.LexDollar` | pkg/sqlredact/redact.go:576-604 | a parameter, a dollar-quoted string up to the first occurrence of its tag, or a lone dollar sign |
| `SqlLexing.LexIdentOrPrefixedString` | pkg/sqlredact/redact.go:609-630 | an identifier, or a constant with an E, B, X, N or U& prefix |
| `SqlLexing.LexToken` | pkg/sqlredact/redact.go:465-503 | the token found at an index depends on the text from there on alone, and is its first lexeme, which `SqlTokens.FirstExactly` describes in characters |
| `SqlLexing.LexAll` | pkg/sqlredact/redact.go:460-505 | the index-driven loop cuts the statement into exactly the lexemes, in their places; `SqlTokens.LexExactly` says which these are |
| `SqlLexer.LexCovers` | pkg/sqlredact/redact.go:456-460 | the tokens together are the whole text |
| `SqlBoundary.FitsEnds` | pkg/sqlredact/redact.go:460-630 | what can follow a token, kind by kind |
| `SqlBoundary.Refit` | pkg/sqlredact/redact.go:460-630 | locality: a token is read the same in every text that continues it as its kind allows |
| `SqlChain.LexChain` | pkg/sqlredact/redact.go:460-505 | tokens that fit one behind another are read back as they are, whatever follows |
| `SqlChain.ChainLex` | pkg/sqlredact/redact.go:460-505 | the tokens of every text fit one behind another |
| `SqlTokens.CommentExactly` | pkg/sqlredact/redact.go:508-529 | a block comment ends where the grammar of nested comments ends it |
| `SqlTokens.ClosesExactly` | pkg/sqlredact/redact.go:533-571 | the scan of quoted text stops at a quote, not followed by another, behind content in which quotes are doubled and backslashes come with what follows them, and nowhere else |
| `SqlTokens.FirstExactly` | pkg/sqlredact/redact.go:465-658 | the token at the start of a text, in characters: white space is the longest run of the six white-space bytes, an identifier the longest run of letters, underscores, bytes from 0x80 on, digits and dollar signs, an operator the longest run of `=<>:!`; constants with their prefixes, quoted identifiers, dollar quotes, parameters and comments likewise; if and only if |
| `SqlTokens.LexExactly` | pkg/sqlredact/redact.go:460-505 | the tokens of a text are those, each read where the one before it ends, and no others |
| `SqlTokens.SpaceExchanged` | pkg/sqlredact/redact.go:465-472 | white space between two tokens may be exchanged for any other: all other tokens stay, and so the significant ones (behind a line comment it has to start with the line break) |
| `SqlTarget.ContextLooksBack` | pkg/sqlredact/redact.go:260-270 | looking back for SET over dotted names and LOCAL or SESSION agrees with a four-bit forward automaton, at every token of every statement |
| `SqlRewriting.MightContain` | pkg/sqlredact/redact.go:103-111 | the loop over the trigger fragments decides whether one occurs |
| `SqlRewriting.TruncatedInUriHost` | pkg/sqlredact/redact.go:349-365 | folding in place and searching for a scheme decides whether a URI is cut off in its host |
| `SqlRewriting.Significant` | pkg/sqlredact/redact.go:134-141 | the indexes of the tokens that are not spaces or comments, in order |
| `SqlRewriting.IsSetTarget` | pkg/sqlredact/redact.go:260-270 | the backward loop finds whether a SET target starts at the name |
| `SqlRewriting.SetValueEnd` | pkg/sqlredact/redact.go:276-289 | the value runs to the semicolon, unless it is DEFAULT or a parameter |
| `SqlRewriting.RedactValueAt` | pkg/sqlredact/redact.go:154-169 | a constant goes together with all constants continuing it, and with the rest of the text if its escapes are ambiguous |
| `SqlRewriting.DecideAt` | pkg/sqlredact/redact.go:171-231 | what one turn of the loop does is a function of the token, the significant tokens after it and the SET context; `SqlDecisions.StepExactly` says in letters what it replaces |
| `SqlRewriting.Redact` | pkg/sqlredact/redact.go:128-238 | the loop with its output buffer and copy position returns the redaction that the walk over tokens defines; `SqlSecrets.TouchedExactly` says which tokens that replaces or drops |
| `SecretWords.SecretNames` | pkg/sqlredact/redact.go:241-256 | a name is a secret's if and only if, in letters of either case, it has one of the seven parts or is one of the five settings, and is not one of the four exceptions |
| `SqlDecisions.SeparatorIs` | pkg/sqlredact/redact.go:435-448 | the separators are the tokens that read `=`, `=>`, `:=` and, in any case, `to` |
| `SqlDecisions.TargetExactly` | pkg/sqlredact/redact.go:260-270 | a name is what a SET command assigns to if and only if names and dots in turn lead back from it to SET, SET LOCAL or SET SESSION |
| `SqlDecisions.ConnExactly` | pkg/sqlredact/redact.go:291-342 | which constants the connection-string rule rewrites, which of them it gives up, and when it drops the rest of the statement |
| `SqlDecisions.QuotesKept` | pkg/sqlredact/redact.go:312-342 | a rewritten constant has the opening and the closing it had |
| `SqlDecisions.StepExactly` | pkg/sqlredact/redact.go:171-231 | one turn of the loop replaces a token if and only if it is a constant that is the value of a name or of a name given as a constant, or continues it; a quoted identifier behind a separator; part of what a SET command assigns; or a constant that the connection-string rule rewrites |
| `SqlDecisions.StepPuts` | pkg/sqlredact/redact.go:154-231 | the placeholder is put for values, in double quotes for a quoted identifier, and the rest is dropped exactly where a backslash leaves the end of the value unclear or the connection-string rule says so |
| `SqlSecrets.TouchedExactly` | pkg/sqlredact/redact.go:128-238 | over the whole statement: an edit reaches into a token if and only if it belongs to the value of a name in front of it that is itself left in place, follows such a value that drops the rest, or is a constant that is rewritten |
| `SqlSecrets.LostHidden` | pkg/sqlredact/redact.go:154-231 | a constant that is lost in this sense is covered as a whole by one edit, which puts the placeholder |
| `SqlSecrets.SecretHidden` | pkg/sqlredact/redact.go:20-31 | in every statement, a constant that follows a secret's name, directly, behind one separator or as the next argument, and every constant that continues it, is covered by the placeholder, unless the name is itself replaced as the value of another |
| `SqlSecretTexts.SecretsAlike` | pkg/sqlredact/redact.go:20-31 | on texts, whatever is in front and behind: with a secret's name, white space and a separator or none, the redacted statement is the same for all plain constants |
| `SqlSecretTexts.SecretShown` | pkg/sqlredact/redact.go:20-31 | and behind a text without constants and other secret names it is the statement with the placeholder for the constant |
| `SqlSecretExamples.SetTokenTo` | pkg/sqlredact/redact.go:25-26 | `SET api_token TO '...'` becomes `SET api_token TO '********'`, whatever the constant |
| `SqlSecretExamples.NameReplaced` | pkg/sqlredact/redact.go:183-185 | a constant behind a quoted name that is itself replaced is kept |
| `SqlEdits.RedactionEdits` | pkg/sqlredact/redact.go:143-238 | the result is the statement with a list of stretches replaced that are not empty, lie one behind another and begin and end where tokens do, and every other character is kept |
| `SqlGate.GateSound` | pkg/sqlredact/redact.go:91-111 | whenever the cheap check fails, the ungated loop would return the statement unchanged |
| `SqlRelex.Relex` | pkg/sqlredact/redact.go:128-238 | unless a rewritten constant runs into the token before it or brings its own tag in, reading a redacted statement again gives the original's tokens with each redacted run replaced by one constant or quoted identifier |
| `SqlApart.RelexExactly` | pkg/sqlredact/redact.go:128-238 | the exact condition: it gives these tokens if and only if every rewritten constant keeps its place |
| `SqlFused.FusedReading` | pkg/sqlredact/redact.go:128-238 | where rewritten dollar-quoted constants avoid their tags, reading a redacted statement again gives these tokens with placeholders fused: one directly behind a string is one string with it, one directly behind u& is one constant with Unicode escapes |
| `SqlFused.FusedExactly` | pkg/sqlredact/redact.go:128-238 | and only there |
| `SqlIdempotence.WalkAgain` | pkg/sqlredact/redact.go:128-238 | walking over what the walk has made changes nothing if and only if each rewritten constant is one the connection-string rule leaves alone |
| `SqlMoves.TextMoves` | pkg/sqlredact/redact.go:128-238 | redacting a statement leaves its text alone if and only if every step keeps its token or puts the placeholder for itself, for every statement whose first other step rewrites a constant or takes one with Unicode escapes for a value |
| `SqlCalm.FusedIdle` | pkg/sqlredact/redact.go:171-231 | redacting what the walk has made, read again with its placeholders fused, does so if and only if no name is in reach of a fused constant and the rule leaves each constant alone |
| `SqlVisible.SeenIs` | pkg/sqlredact/redact.go:291-298 | whether a redacted value still mentions a secret, or still looks cut off in a host, is decided by the stretches that its redaction keeps |
| `SqlApart.NoneRewrittenIdempotent` | pkg/sqlredact/redact.go:303-342 | redaction is idempotent on every statement in which the connection-string rule rewrites nothing |
| `SqlSettled.RewrittenAgain` | pkg/sqlredact/redact.go:303-342 | a rewritten constant is rewritten again if and only if it is restless: it is not given up, what is kept of its value mentions a secret, and the value is unsettled or, in a constant without an end, nothing kept ends its host |
| `SqlSettled.PlacedExactly` | pkg/sqlredact/redact.go:303-342 | what is put for a constant stays one token in its place if and only if its dollar tag does not occur in the redacted body and no placeholder comes directly behind a string, or behind u&, in place of a constant with a prefix or tag |
| `SqlStirs.RestsWalk` | pkg/sqlredact/redact.go:171-231 | over a whole walk: the rule leaves each constant alone, read together with the placeholders behind it, if and only if no constant of the statement stirs: by its value, the number of constants given up directly behind it, and what its redaction keeps |
| `SqlStirs.RedactIdempotent` | pkg/sqlredact/redact.go:125-238 | where rewritten dollar-quoted constants avoid their tags, redaction of a statement is idempotent if and only if none of its constants stirs and no fused constant comes into reach of a name |
| `SqlExamples.LoneConstant` | pkg/sqlredact/redact.go:303-342 | a constant that starts with a password parameter is redacted as the connection string it holds |
| `SqlExamples.LoneIdempotent` | pkg/sqlredact/redact.go:125-128 | on statements that are one such constant, redaction is idempotent if and only if the value is not unsettled |
| `SqlExamples.NotIdempotent` | pkg/sqlredact/redact.go:125-128 | a statement on which redaction is not idempotent |
| `SqlExamples.MergedNotIdempotent` | pkg/sqlredact/redact.go:303-342 | another, in which two constants run together |
| `SqlHidden.WalkGuarded` | pkg/sqlredact/redact.go:171-231 | in what the walk makes of a statement, every secret's name is guarded |
| `SqlExposed.GuardedExactly` | pkg/sqlredact/redact.go:20-31 | where rewritten dollar-quoted constants avoid their tags: in a redacted statement, read again, every name of a secret is followed by the plain placeholder or by nothing that could be its value, if and only if no u, & and given-up constant stand directly behind a name or a replaced value |
| `SqlExposed.SecretsHidden` | pkg/sqlredact/redact.go:20-31 | the same for one token, as identifier, SET target or constant argument, with the target found by looking back |
| `SqlExposed.ApartHides` | pkg/sqlredact/redact.go:20-31 | both conditions hold where no rewritten constants run together |
| `SqlMergeExample.NotHidden` | pkg/sqlredact/redact.go:325-328 | a statement in which a name is followed by a placeholder that is read together with the u& before it |
| `SqlParameters.StepReplaces` | pkg/sqlredact/redact.go:171-231 | one turn of the loop replaces a parameter if and only if it replaces a SET command's value of more than one token that holds it |
| `SqlParameters.TouchedIsHit` | pkg/sqlredact/redact.go:171-238 | the walk replaces or drops a token if and only if an edit of the statement reaches into the token's place in the text |
| `SqlParameters.ParameterSurvives` | pkg/sqlredact/redact.go:39-41 | a parameter is left in place if and only if it is in no SET command's value of more than one token and behind no edit that runs to the end, for every parameter of every statement |
| `SqlSetExample.ParametersLost` | pkg/sqlredact/redact.go:39-41 | a SET command, as text, that loses two parameters |
| `SqlValues.ReplacedSame` | pkg/sqlredact/redact.go:154-199 | the walk does not depend on a constant that it replaces |
| `SqlValues.ValueIndependent` | pkg/sqlredact/redact.go:154-199 | statements that differ only in the body of a plain constant that is redacted as a value have equal redactions |
| `SqlConstants.BodyRestored` | pkg/sqlredact/redact.go:332-342 | undoubling and doubling the quotes of a constant's body restores it, terminated or not |
| `SqlConstants.RebuiltInPlace` | pkg/sqlredact/redact.go:332-342 | the constant rebuilt from any value is read as one constant with that value, and the tokens after it stay |
| `SqlConstants.RebuiltDollar` | pkg/sqlredact/redact.go:576-604 | a dollar-quoted constant can take any body in which its tag does not occur |
| `SqlConstants.DollarExactly` | pkg/sqlredact/redact.go:576-604 | and no other: with another body it reads back as one constant if and only if the body avoids the tag |
| `SqlConstants.RedactedDollarFits` | pkg/sqlredact/redact.go:312-324 | a redacted body can go back between its dollar tags if and only if it avoids the tag, and it does if every nested value that is rewritten avoids the tag once decoded |
| `SqlDollarExample.TagBroughtIn` | pkg/sqlredact/redact.go:317-319 | a dollar-quoted constant that ends early once redacted |
| `SqlConstants.ConnRewriteFits` | pkg/sqlredact/redact.go:303-342 | whatever the connection-string rule puts for a constant reads back as one constant, if and only if it is not a dollar-quoted body that holds its tag |
| `SqlMarker.TagStatement` | pkg/sqlmarker/sqlmarker.go:117-148 | the loops insert the comment behind the leading keyword, or leave the statement alone |
| `SqlMarker.TagCommutes` | pkg/sqlmarker/sqlmarker.go:117-148 | where the leading word is a token of its own, tagging and redaction commute if and only if there is no keyword or redaction neither brings in nor removes the marker |
| `SqlMarkerText.TagExactly` | pkg/sqlmarker/sqlmarker.go:117-162 | the marker goes behind the longest run of letters that follows the leading white space, if there is one and the text does not hold the marker yet |
| `SqlMarkerText.TagIdempotent` | pkg/sqlmarker/sqlmarker.go:98-99 | tagging a statement twice is tagging it once |
| `SqlMarkerText.TagTokens` | pkg/sqlmarker/sqlmarker.go:99-148 | tagging leaves the significant tokens of a statement as they are, if and only if it is not tagged or its leading word is a token of its own |
| `ConnString.ParseOne` | pkg/connstring/redact.go:112-141 | a parameter's decoded value is shorter than the string, so redacting a nested one terminates |
| `ConnStringScan.ScanKeywordValue` | pkg/connstring/redact.go:173-212 | the span and the decoded form of a value, quoted or not, or an error for a missing quote |
| `ConnStringScan.ScanParam` | pkg/connstring/redact.go:112-141 | the places of key and value, the end, or an error where libpq rejects the string |
| `ConnStringScan.MakeReplacements` | pkg/connstring/redact.go:155-166 | the replacements are spliced in and everything else is copied |
| `ConnStringScan.RedactKeywordValue` | pkg/connstring/redact.go:105-167 | the loop with its replacement list renders the parsed parameters with new values |
| `ConnStringScan.FindQuery` | pkg/connstring/redact.go:277-292 | the first question mark outside brackets |
| `ConnStringScan.RedactUriIn` | pkg/connstring/redact.go:225-271 | the redacted URI, with the parameters overwritten one by one |
| `ConnStringScan.Redact` | pkg/connstring/redact.go:57-71 | the mutually recursive methods compute `RedactPasswords`; `ConnStringSecrets.KeywordsExactly` and `ConnStringSecrets.UriExactly` say in letters what that is |
| `ConnStringGrammar.ParseExactly` | pkg/connstring/redact.go:86-212 | a string is cut into parameters if and only if it is a row of them in the grammar of keys, equals signs and plain or quoted values, and then into those |
| `ConnStringSecrets.PasswordKeys` | pkg/connstring/redact.go:37-44 | a key is a password's if and only if it reads `password` or `sslpassword`, in letters of either case |
| `ConnStringSecrets.KeywordsExactly` | pkg/connstring/redact.go:105-167 | a row of parameters is redacted to itself with the placeholder for the value of every key that reads so, and every other value as it was, unless it is a dbname that is a connection string with a password; any other string becomes the placeholder |
| `ConnStringSecrets.KeyHidesIs` | pkg/connstring/redact.go:257-267 | the key of a query parameter names a password if and only if what its percent codes stand for does, or it itself where they stand for nothing |
| `ConnStringSecrets.HostsExactly` | pkg/connstring/redact.go:248-292 | behind the user information everything is kept but the values of such parameters, from the first question mark outside brackets on |
| `ConnStringSecrets.UriExactly` | pkg/connstring/redact.go:225-271 | a URI keeps its scheme, and its user information up to the first colon; what follows the colon is the placeholder if there is anything |
| `ConnStringScan.Build` | pkg/connstring/connstring.go:36-42 | in whatever order the map is visited, the output tokenizes back to exactly its parameters if and only if no value has a single quote |
| `ConnStringLaws.ParseIs` | pkg/connstring/redact.go:105-212 | parameters that are cut as the tokenizer cuts them are read back one by one |
| `ConnStringLaws.ParseCut` | pkg/connstring/redact.go:105-212 | tokenizing loses no character |
| `ConnStringRedaction.RedactedTokens` | pkg/connstring/redact.go:105-167 | a redacted string tokenizes to the same keys and values, with each password the placeholder and each nested connection string redacted, if and only if no password is glued to the next key and no nested connection string shows a single quote |
| `ConnStringClean.FixedExactly` | pkg/connstring/redact.go:57-71 | redaction leaves a string as it is if and only if no password can be seen in it, in either format and at any depth of nesting, or it is the placeholder |
| `ConnStringRedaction.KeywordIdempotent` | pkg/connstring/redact.go:105-167 | redaction of a keyword string is idempotent if and only if no password value is glued to the next key, no nested value is unsettled, and the first one that shows a single quote leaves no password visible and nothing malformed |
| `ConnStringUri.UncoversExactly` | pkg/connstring/redact.go:225-271 | redacting a URI uncovers user information or a query if and only if, parameter by parameter, what stays visible of the given query comes to an @ before any slash, with a colon before it or an open password parameter behind it |
| `ConnStringUri.UriIdempotent` | pkg/connstring/redact.go:225-271 | redaction of a URI is idempotent if and only if the given URI does not uncover anything in this way |
| `ConnStringUri.PathBeforeQuery` | pkg/connstring/redact.go:225-271 | it uncovers none when the host is followed by a slash before the query |
| `ConnStringRedaction.RedactIdempotent` | pkg/connstring/redact.go:53-71 | both formats, every string: redaction is idempotent if and only if the string is not unsettled |
| `ConnStringMask.RedactionMasks` | pkg/connstring/redact.go:46-71 | the result is the string with disjoint stretches replaced by the placeholder, or where a nested connection string stood, by its redaction, and all else in place |
| `ConnStringGrowth.RedactionGrows` | pkg/connstring/redact.go:46-71 | if a redacted string begins with the whole of the string it was made from, an asterisk follows |
| `ConnStringGrowth.RedactedChars` | pkg/connstring/redact.go:46-71 | redaction adds no character other than asterisks and single quotes |
| `ConnStringKept.KeptRedacts` | pkg/connstring/redact.go:57-71 | the result is the stretches that are kept, with one placeholder between each two |
| `ConnStringTags.RedactedAvoids` | pkg/sqlredact/redact.go:317-319 | a tag that occurs in neither the string nor a decoded nested value does not occur in the result |
| `ConnStringPrint.BuildRoundTrip` | pkg/connstring/connstring.go:26-42 | tokenizing printed parameters gives them back, backslashes included, if and only if no value holds a single quote |
| `ConnStringExamples.GluedExample` | pkg/connstring/redact.go:184-193 | a keyword string on which redaction is not idempotent |
| `ConnStringSplit.SplitChanges` | pkg/connstring/redact.go:146-153 | a nested connection string that is put back with two words behind its first quote makes the whole string malformed |
| `ConnStringBehind.SplitBreaks` | pkg/connstring/redact.go:146-153 | such a string is broken, whatever follows |
| `ConnStringBehind.WordBreaks` | pkg/connstring/redact.go:146-153 | so is one with a single word behind that quote, followed by whitespace or the end |
| `ConnStringBehind.PairHarmless` | pkg/connstring/redact.go:146-153 | a key and a value without whitespace there are harmless: the string is broken if and only if a password shows before the quote or what follows moves |
| `ConnStringExamples.NestedExample` | pkg/connstring/redact.go:146-153 | a nested connection string with a quoted value: redacted twice, the whole string is given up |
| `ConnStringExamples.LateAtExample` | pkg/connstring/redact.go:238-246 | a URI on which redaction is not idempotent |
| `ShellCommand.WordEnds` | pkg/pgsettings/redact.go:237-303 | a word ends at the first blank that the shell's quoting rules, read one character at a time, leave unquoted; the command is given up exactly when there is no such end |
| `ShellSyntax.WordExactly` | pkg/pgsettings/redact.go:237-299 | with nothing but POSIX quoting: the first word has a length if and only if that is the first place outside quotes at a space, a tab or the end, and before it no semicolon, ampersand, bar, angle bracket, parenthesis or line break stands unquoted and no dollar sign or backtick unquoted or in double quotes; it is given up if and only if there is no such place |
| `ShellSyntax.CommandExactly` | pkg/pgsettings/redact.go:185-225 | a command has the shape that is shown if and only if it is a row of words in this sense, assignments with a value first and then a plain program name with whatever follows, or nothing; so nothing that ends or groups commands stands before the program |
| `ShellSyntax.RedactExactly` | pkg/pgsettings/redact.go:154-225 | what is shown: the variables' names, the program and whether anything follows it; a blank command as it is, and the placeholder for every other |
| `ShellCommand.ShownBack` | pkg/pgsettings/redact.go:185-225 | a shown command has the shape it was shown for |
| `ShellCommand.RedactIdempotent` | pkg/pgsettings/redact.go:154-225 | redaction of a command is idempotent on every string |
| `ShellCommand.ShapeDecides` | pkg/pgsettings/redact.go:154-225 | two commands are shown alike if and only if they have the same leading variable names, program and presence of arguments, or are both given up |
| `ShellScan.SkipDoubleQuoted` | pkg/pgsettings/redact.go:286-299 | the index behind the closing quote, or failure |
| `ShellScan.SkipShellWordPart` | pkg/pgsettings/redact.go:260-281 | the index behind one part of a word, or failure |
| `ShellScan.NextShellWord` | pkg/pgsettings/redact.go:237-249 | the word is not empty, word and rest are the input, and the word ends where the quoting rules say |
| `ShellScan.IsBlankShellWord` | pkg/pgsettings/redact.go:307-327 | whether a word is blank once quotes and backslashes are removed |
| `ShellScan.RedactShellCommand` | pkg/pgsettings/redact.go:185-225 | the loop over words shows what `ShellSyntax.RedactExactly` describes |
| `ShellScan.SettingExactly` | pkg/pgsettings/redact.go:106-150 | which settings are redacted and how, in the letters of their names |
| `ShellScan.SettingIdempotent` | pkg/pgsettings/redact.go:138-150 | redaction by setting name is idempotent if and only if the setting is not a connection string that is unsettled |
| `CycleDetector.Exact` | pkg/llmsettings/llmsettings.go:136-198 | a value is rejected if and only if a path from it, along what pointers, maps, slices, interfaces and arrays hold, reaches a map with other keys or comes twice to the same type, address and length |
| `CycleDetector.AcceptsFiniteTrees` | pkg/llmsettings/llmsettings.go:125-198 | a value is accepted if and only if, written out in full, each of the six kinds with all it holds, it is a finite tree without such maps |
| `CycleDetector.AcceptedPaths` | pkg/llmsettings/llmsettings.go:125-198 | every path from an accepted value is free of repetitions |
| `CycleDetector.HolderRejected` | pkg/llmsettings/llmsettings.go:136-198 | whatever its kind, a value is rejected whenever something it holds is |
| `CycleDetector.OrderIrrelevant` | pkg/llmsettings/llmsettings.go:150-160 | the order of a map's entries does not matter |
| `CycleDetector.SharingAccepted` | pkg/llmsettings/llmsettings.go:131-135 | values shared without a cycle are accepted, however often |
| `CycleDetector.Walker.Unencodable` | pkg/llmsettings/llmsettings.go:136-174 | the walk with one shared, mutable path gives the verdict, leaves the path as it was, and terminates |
| `CycleDetector.Walker.ElementsUnencodable` | pkg/llmsettings/llmsettings.go:191-198 | the same for the elements of an array |
| `CycleDetector.Walker.WalkOnce` | pkg/llmsettings/llmsettings.go:179-187 | the same for what a map, pointer or slice holds, visited in any order |
| `SpanRedaction.DeleteMapped` | pkg/redact/provider.go:114-128 | the text without formatting characters, and where each of its characters was |
| `SpanRedaction.MatchSpans` | pkg/redact/provider.go:132-145 | exactly the occurrences, overlapping ones included, from left to right |
| `SpanRedaction.Sweep` | pkg/redact/provider.go:149-164 | for spans sorted by start, with ties in any order, each covered stretch becomes one marker and the rest is kept |
| `SpanRedaction.ReplaceSpans` | pkg/redact/provider.go:149-164 | the result depends on nothing but the set of covered positions |
| `SpanRedaction.SecretSpans` | pkg/redact/provider.go:74-85 | the spans of a secret cover exactly what its chosen form hits |
| `SpanRedaction.FormExactly` | pkg/redact/provider.go:74-80 | a secret is looked for without its formatting characters if and only if it has others, and these take at least four bytes of UTF-8 or are all it has |
| `SpanRedaction.HideSecrets` | pkg/redact/provider.go:71-86 | position by position: a character is dropped if and only if it is formatting or lies in an occurrence of a secret's chosen form, and a marker stands where a hidden stretch begins |
| `SpanRedaction.HitInDeleted` | pkg/redact/provider.go:76-82 | a character that is kept is hidden by a form if and only if it lies in an occurrence of it in the deleted text |
| `SpanRedaction.BetweenMarkers` | pkg/redact/provider.go:60-70 | no stretch between two markers holds a secret: not its form, however it was split by formatting characters, nor the secret itself where that is what is looked for |
| `WorkerPool.StepKeeps` | pkg/worker/worker_pool.go:70-154 | every step of every goroutine keeps the pool's invariant |
| `WorkerPool.PoolSafe` | pkg/worker/worker_pool.go:70-154 | in every run: taken jobs followed by queued ones are the accepted ones in order, none is taken twice, and queue and handlers stay within bounds |
| `WorkerPool.AnswerExactly` | pkg/worker/worker_pool.go:101-137 | a submission that does not wait can always be answered: accepted if and only if there is room, and refused, while the pool is open, if and only if there is none; one that waits cannot be answered exactly while the pool is open and full |
| `WorkerPool.StaysAsked` | pkg/worker/worker_pool.go:101-137 | a submission is not lost before it is answered |
| `WorkerPool.AnsweredOnce` | pkg/worker/worker_pool.go:101-137 | and is not answered again after |
| `WorkerPool.ClosedDescends` | pkg/worker/worker_pool.go:80-154 | after the close every step of a worker or a submission lowers 3·checked + 2·queued + running + live (plus 2 for each worker a late Start may launch) |
| `WorkerPool.StopTerminates` | pkg/worker/worker_pool.go:147-154 | so every run after the close has a bounded number of such steps |
| `WorkerPool.StuckIsStopped` | pkg/worker/worker_pool.go:147-154 | when none is left, all submissions are answered, all workers gone and Stop can return |
| `WorkerPool.NothingAfterStop` | pkg/worker/worker_pool.go:139-154 | if Start finished before the close, nothing is taken and no handler runs after Stop has returned |
| `WorkerPool.RunsAgain` | pkg/worker/worker_pool.go:70-77 | when a handler can still run after Stop, if and only if |
| `WorkerPool.LateStart` | pkg/worker/worker_pool.go:70-77 | a run in which Stop has returned and a handler runs, for every pool |
| `ReasoningCache.StepKeeps` | client/src/hooks/useAlertReasoning.ts:57-152 | every step keeps the invariant of cache, table and generation |
| `ReasoningCache.OutcomeExactly` | client/src/hooks/useAlertReasoning.ts:79-127 | which responses come to available, unavailable, not applicable, an error that may be retried and one that may not, each if and only if |
| `ReasoningCache.SessionSafe` | client/src/hooks/useAlertReasoning.ts:53-77 | in every run: cached results are of the current generation, and a second request for a key in a generation comes only after the first has finished without a usable result |
| `ReasoningCache.LateCompletion` | client/src/hooks/useAlertReasoning.ts:137-148 | a late completion removes no newer entry, and one of an earlier generation changes neither table nor cache |
| `ReasoningCache.CachedStays` | client/src/hooks/useAlertReasoning.ts:53-57 | once cached, a key is not requested again until the cache is cleared |
| `ReasoningCache.Session.FetchReasoning` | client/src/hooks/useAlertReasoning.ts:129-152 | the pending request for the key, or one new request |
| `ReasoningCache.Session.OnResponse` | client/src/hooks/useAlertReasoning.ts:137-143 | a usable result of the current generation is cached, any other is not |
| `ReasoningCache.Session.OnFinished` | client/src/hooks/useAlertReasoning.ts:144-148 | the entry is removed only if it is the request's own |
| `ReasoningCache.Session.ClearCache` | client/src/hooks/useAlertReasoning.ts:73-77 | cache and table are emptied and a new generation begins |
| `ReasoningCache.Session.LoadKey` | client/src/hooks/useAlertReasoning.ts:178-196 | a cached result is shown, and a request is made or shared exactly when the hook is idle, or forced and not loading |
| `RetentionSchedule.DueTime` | collector/src/garbage_collector.go:157-172 | a collection is due at the later of a grace period from now and an interval from the last completion |
| `RetentionSchedule.StepKeeps` | collector/src/garbage_collector.go:85-172 | only a decision that treats an unreadable record as due breaks the spacing |
| `RetentionSchedule.CompletionsSpaced` | collector/src/garbage_collector.go:81-172 | without such decisions recorded completions are an interval apart, over any restarts, crashes, failures and retries |
| `RetentionSchedule.FromTheStart` | collector/src/garbage_collector.go:81-172 | in particular in every history in which the record can be read |
| `RetentionSchedule.HastyDecision` | collector/src/garbage_collector.go:135-139 | every such decision can cost the distance |
| `RetentionSchedule.AttemptOnTime` | collector/src/garbage_collector.go:103-117 | a process that waits and is not stopped attempts exactly when its timer is due |
| `RetentionSchedule.EveryProcessAttempts` | collector/src/garbage_collector.go:81-172 | whatever happened before, a process that is up past the due time (a grace period after its start if nothing was ever recorded) has attempted a collection at exactly that time |
| `RetentionSchedule.RetriesOnTime` | collector/src/garbage_collector.go:71-172 | a process that is up a quarter of an hour after deciding on a failure has made its next attempt at exactly that time |
| `LsnDiff.HalfSql` | pkg/anomaly/metrics.go:196-206 | the loop generates the sum of eight weighted digit positions |
| `LsnDiff.HalfValue` | pkg/anomaly/metrics.go:196-206 | the value of a half is its hexadecimal value, for up to eight digits in either case |
| `LsnDiff.DiffIsExact` | pkg/anomaly/metrics.go:218-222 | the generated expression is the difference of the 64-bit LSNs, and has that value if and only if no step of it leaves the range of a bigint |
| `LsnDiff.DiffInRange` | pkg/anomaly/metrics.go:208-222 | in particular when the high halves differ by at most 2^31 - 1 |
| `Scoring.ZScore` | pkg/anomaly/scoring.go:178-191 | the clamped score, or none for a divisor of zero |
| `Scoring.NormalMeans` | pkg/anomaly/scoring.go:199-201 | a value is normal if and only if it is under its floor or its distance from the mean is within sensitivity times divisor |
| `Scoring.DivisorLeast` | pkg/anomaly/scoring.go:167-173 | the divisor is the least number not below the deviation, the share of the mean's size, the absolute floor and the metric's floor |
| `Scoring.NormalExactly` | pkg/anomaly/scoring.go:167-201 | so a value is normal if and only if it is under its floor or its distance from the mean is within sensitivity times one of the four |
| `Scoring.ClampNeutral` | pkg/anomaly/scoring.go:178-201 | the clamp changes no verdict if and only if the sensitivity is below the bound |
| `Scoring.FloorsMonotone` | pkg/anomaly/scoring.go:167-201 | raising any floor never turns a normal value into an anomaly |

## Left out

- SqlStirs.RedactIdempotent: does not decide statements in which a rewritten dollar-quoted constant has come to hold its tag, since the rest of the text is then cut into other tokens; `SqlDollarExample.TagBroughtIn` shows one.
- SqlExposed.GuardedExactly: as `SqlStirs.RedactIdempotent`.
- SqlMarker.TagCommutes: excludes statements whose leading letters are part of a longer word or of a constant's prefix, which the tagger's own comment excludes.
- SpanRedaction.HideSecrets: matches start on code points and invalid UTF-8 is not modelled; the regular expressions applied afterwards are not part of the model.
- RetentionSchedule.EveryProcessAttempts: timers go off on time and the clock does not go back.
- LsnDiff.DiffIsExact: the expression is a tree, not SQL text, and the final cast to a float is left out.
- ReasoningCache.Session.OnResponse: text is blank if it consists of ASCII white space, and the `source` of a result is not kept.
- WorkerPool.StopTerminates: handlers return and do not call `Stop`; the pool is a state with steps rather than an object, since what matters is the interleaving of its goroutines.
- Case is folded for ASCII letters only: Go's `ToLower` and `EqualFold` also fold other letters.
- `BuildFromConfig` and `CandidatePatterns` add only tables to what is modelled.
- Choosing a baseline (`Candidates`, `Select`, `IsWarm`) and floating-point rounding.
- Dropping partitions, the per-probe loop, database calls, logging and signals of the collector.
- `json.Marshal` after the check for cycles, and the other checks of `Settings.Validate`.
- The rendering of hooks and components in the client.
- The regular-expression redactors (`pkg/redact/redact.go`, `pkg/coldfrontsql`) and `BaseURLSecrets`.
