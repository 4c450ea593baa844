# Entrypoint models

Verified models of the Go entrypoints of the Zabbix container images. Everything the entrypoints decide over
unbounded input or over whole runs is here as a Dafny program with its proofs; `dafny verify dfyconfig.toml`
checks all of it.

* **SQL scripts** (`Sql*.dfy`). The splitter is a mutable parser fed one line at a time (`SqlScript`). `SqlOnePass`
  shows that this is one pass over the whole script. `SqlGrammar` says what a script means without modes, as a
  sequence of complete lexemes, and `SqlConservation` proves the splitter against it: acceptance, result and
  uniqueness. `SqlMeaning` and `SqlDelimiters` spell both out byte by byte. `SqlRoundTrip` inverts a printer, `SqlFixpoints` says exactly which statements split to
  themselves and which scripts return such statements, and `SqlResplit` shows one that does not.
* **Indexed variables and configuration files** (`IndexedVariables`, `ConfigLines`, `Parameter*`, `RuleFiles`).
  An unordered environment becomes one ordered list of rules and then lines in a file. The results are exact to the
  byte: which write is absorbed by which later write, and under which condition on carriage returns.
* **Storage schemas** (`ClickHouse*`, `Elasticsearch*`). Preparing a schema is a run of a system in which requests
  fail, DDL reaches any nodes at any time and runs overlap. Safety is proved over all histories; the imperative
  clients are shown to be runs of the system.
* **Providers** (`Paths`, `OrderedKeys`, `Provider*`, `Native*`, `Json*`). Validation,
  separate credentials, the native option string with a reference parser that undoes it, the cached all-or-nothing
  conversion of the environment, and the text that PHP reads.
* **Secrets** (`Secret*.dfy`). The registry of entries by name and condition, that no two of them interfere, where
  their files lie, when they can be resolved and what comes of each, the directories prepared behind them, and the
  whole pipeline with its imperative form.
* **Supervisor and endpoints** (`Supervisor`, `Endpoint*`). The small concurrent protocol of the web images, and the
  PostgreSQL endpoint list with its round trip.

Several expected laws do not hold of the code as they stand, and the models say exactly when they do:

* a returned statement need not split to itself: not when it has a semicolon that was no delimiter, two dashes that a
  dropped comment followed, or a first line like a DELIMITER line (`SqlFixpoints`, `SqlResplit`);
* configuration writes are absorbed only where no kept line ends in a carriage return and the earlier write leaves no
  line behind: a value with a newline can, a removal keeps the separating blank line of an appended parameter, and a
  file that a removal has emptied reads back as one empty line (`ParameterAbsorption`, `RuleFiles`);
* the native option string does not tell `true` from `1`, or a comma in a type name from two names
  (`NativeOptions`);
* an absolute file path with a trailing slash is split into a location and a name that lead elsewhere (`Paths`).

## Model

| member | source | states |
|---|---|---|
| `SqlScript.SqlStatementParser.constructor` | templates/entrypoints/internal/mysql/sqlscript.go:19 | A new parser is in normal mode with the delimiter `;` and no statements. |
| `SqlScript.SqlStatementParser.CanChange` | templates/entrypoints/internal/mysql/sqlscript.go:47-49 | The flags of the parser object say "between statements" exactly when the lexer state is normal with a blank pending statement. |
| `SqlScript.SqlStatementParser.FlushStatement` | templates/entrypoints/internal/mysql/sqlscript.go:130-136 | Ends the pending statement: trimmed, and kept only when something is left. |
| `SqlScript.SqlStatementParser.WriteNext` | templates/entrypoints/internal/mysql/sqlscript.go:52-127 | One turn of the byte loop, on the mutable flags, is one step of the lexer on the unread text, for every mode and escape. |
| `SqlScript.SqlStatementParser.Write` | templates/entrypoints/internal/mysql/sqlscript.go:51-128 | Writing a text takes the mutable parser to the state the lexer reaches on that text. |
| `SqlScript.SqlStatementParser.Feed` | templates/entrypoints/internal/mysql/sqlscript.go:20-37 | One line is either obeyed as a DELIMITER directive (only between statements) or written; SqlDelimiters.DirectiveInstalls says which delimiter a directive installs. |
| `SqlScript.SqlStatementParser.Close` | templates/entrypoints/internal/mysql/sqlscript.go:38-45 | The end of a run: an open quote or block comment is an error, otherwise the last statement is completed. |
| `SqlScript.SplitSqlStatements` | templates/entrypoints/internal/mysql/sqlscript.go:18-45 | The line loop over the parser object computes the line-fed lexer run, errors included, and terminates; SqlMeaning.ScriptMeans and SqlDelimiters.StatementBehindDelimiter say what that run returns. |
| `SqlOnePass.StepIgnoresNextLine` | templates/entrypoints/internal/mysql/sqlscript.go:51-127 | No lookahead of the byte loop (comment ends, kept-comment marks, `--` with a space, doubled quotes, escapes, delimiters) crosses a newline. |
| `SqlOnePass.ScanSplitsAtNewline` | templates/entrypoints/internal/mysql/sqlscript.go:51-128 | Writing a text that ends a line and then another text equals writing their concatenation, from every reachable state. |
| `SqlOnePass.LineFedIsOnePass` | templates/entrypoints/internal/mysql/sqlscript.go:18-45 | Feeding line by line, with directives between lines, is one pass over the whole script, from every state. |
| `SqlGrammar.RunToken` | templates/entrypoints/internal/mysql/sqlscript.go:51-136 | Every lexeme of the grammar, in its context, moves the one-pass lexer to the state its written text prescribes, whatever follows. |
| `SqlConservation.ReadingGivesResult` | templates/entrypoints/internal/mysql/sqlscript.go:51-136 | From every normal state, any reading of the rest of a script determines the statements still to come and uses up every byte. |
| `SqlConservation.AcceptsExactlyTheGrammar` | templates/entrypoints/internal/mysql/sqlscript.go:38-45 | A script is rejected exactly when it is no sequence of complete lexemes (some quote or block comment stays open). |
| `SqlConservation.ResultIsTheWrittenText` | templates/entrypoints/internal/mysql/sqlscript.go:51-136 | Conservation: the lexemes concatenate to the script, and the result is their written text cut at the delimiters, trimmed, without empty statements. |
| `SqlConservation.ReadingIsUnique` | templates/entrypoints/internal/mysql/sqlscript.go:51-128 | Each input byte belongs to exactly one lexeme: two readings of a script are equal. |
| `SqlRoundTrip.PrintSplitRoundTrip` | templates/entrypoints/internal/mysql/sqlscript.go:18-45 | Joining statements that each split to themselves with `;` and a newline and splitting returns exactly that list. |
| `SqlFixpoints.ResplitsExactly` | templates/entrypoints/internal/mysql/sqlscript.go:18-45 | A statement splits to itself exactly when it is non-empty, trimmed, does not start like a DELIMITER line, and a scan of its bytes finds no delimiter, line comment or dropped comment outside quotes and kept comments and ends between lexemes. |
| `SqlFixpoints.ScriptResplits` | templates/entrypoints/internal/mysql/sqlscript.go:51-136 | For every reading of every script: the result is the blocks of lexemes between delimiters, and the statement of a block splits to itself exactly when the block has no semicolon as statement text, no two dashes in front of a dropped comment with text behind it, and no first line like a DELIMITER line. |
| `SqlFixpoints.PrintSplitExactly` | templates/entrypoints/internal/mysql/sqlscript.go:18-45 | Splitting inverts printing on a list of statements that start as statement text exactly when each of them splits to itself. |
| `SqlResplit.ResplittingLosesText` | templates/entrypoints/internal/mysql/sqlscript.go:62-79 | A returned statement need not split to itself: a dropped comment can join two dashes to a new line comment. |
| `SqlDelimiters.DirectiveInstalls` | templates/entrypoints/internal/mysql/sqlscript.go:24-33 | Between statements, a line of two words whose first one folds to DELIMITER installs its second word, whatever white space is around and between them. |
| `SqlDelimiters.StatementBehindDelimiter` | templates/entrypoints/internal/mysql/sqlscript.go:18-45 | For every word that folds to DELIMITER, every delimiter without white space and every plain text in which it does not start: the script of that line, the text and the delimiter has exactly the trimmed text as its one statement. |
| `SqlMeaning.ScriptMeans` | templates/entrypoints/internal/mysql/sqlscript.go:51-136 | For every sequence of letters, quoted texts, comments and semicolons that reads as such: the result is cut at the semicolons only, quoted texts and comments behind "/*!" or "/*+" stay, other block comments become a blank and line comments the end of their line. |
| `SqlMeaning.PiecesAreAllScripts` | templates/entrypoints/internal/mysql/sqlscript.go:51-128 | The accepted scripts without DELIMITER lines are exactly those sequences. |
| `IndexedVariables.CanonicalSuffix` | templates/entrypoints/internal/bootstrap/indexed.go:22-26 | A suffix is an index exactly when it is the canonical decimal numeral of a machine integer. |
| `IndexedVariables.VariableName` | templates/entrypoints/internal/bootstrap/indexed.go:18-20 | Every recognised variable is named after its longest prefix and its index. |
| `IndexedVariables.RecognisedOnce` | templates/entrypoints/internal/bootstrap/indexed.go:86-94 | At most one of the prefixes is the longest match of a name, whatever their order. |
| `IndexedVariables.ListingIsUnique` | templates/entrypoints/internal/bootstrap/indexed.go:31-84 | Two correct collections, over any order of the map and of the prefixes, are the same list. |
| `IndexedVariables.AcceptsSamePrefixes` | templates/entrypoints/internal/bootstrap/indexed.go:31-84 | Acceptance depends on the set of prefixes only. |
| `IndexedVariables.SortPrefixes` | templates/entrypoints/internal/bootstrap/indexed.go:32-35 | The prefixes longest first, ties in any order, none lost. |
| `IndexedVariables.CollectOrdered` | templates/entrypoints/internal/bootstrap/indexed.go:37-84 | With longest-first prefixes: success exactly for accepted environments, and the result lists index i at place i. |
| `IndexedVariables.CollectIndexed` | templates/entrypoints/internal/bootstrap/indexed.go:31-84 | Success exactly when no bare prefix is set, every recognised variable is canonical (strict) and non-empty, and the indices are 0..n-1 each once; the result is the unique listing. |
| `Decimal.AtoiItoa` | templates/entrypoints/internal/bootstrap/indexed.go:22-26 | Reading the printed numeral of a machine integer gives it back. |
| `ConfigLines.ReadBackEntries` | templates/entrypoints/internal/config/parameters.go:191-214 | Reading a written file back gives its physical lines, each without one trailing CR; an empty file reads as one empty line. |
| `Parameters.ConfigFile.WriteLines` | templates/entrypoints/internal/config/parameters.go:203-214 | Writing replaces the file with the normalised text, and an unchanged file is not written at all. |
| `Parameters.ConfigFile.RewriteParameter` | templates/entrypoints/internal/config/parameters.go:128-189 | The two loops over the lines compute the specified file; a missing file fails without effect. |
| `Parameters.ConfigFile.MergeParameterValues` | templates/entrypoints/internal/config/parameters.go:20-36 | Merging a comma-separated or quoted value list computes the specified file. |
| `Parameters.ConfigFile.SetParameter` | templates/entrypoints/internal/config/parameters.go:38-40 | Setting a parameter replaces all its lines with the one value. |
| `ParameterLaws.RewriteTouchesOnlyItsParameter` | templates/entrypoints/internal/config/parameters.go:128-189 | Other lines keep content and order with at most one blank line added; the parameter has its old lines (preserve mode) followed by the new ones, contiguous. |
| `ParameterLaws.RewriteLeavesOthersAlone` | templates/entrypoints/internal/config/parameters.go:128-189 | Rewriting one parameter leaves the active lines of every other parameter unchanged. |
| `ParameterAbsorption.ReplaceAbsorbs` | templates/entrypoints/internal/config/parameters.go:128-214 | For all value lists, empty ones included: writing v1 and then v2 in replace mode equals writing v2 alone, byte for byte, exactly when no other line ends in a CR and, set after set, every physical line of v1 sets the parameter; removal after set, v1 leaves no line and no separating blank line; set after removal, some other line is there. |
| `ParameterAbsorption.MergeIsIdempotent` | templates/entrypoints/internal/config/parameters.go:128-214 | Merging the same list twice equals merging it once, byte for byte, exactly when no line and no value ends in a CR and no value holds a newline. |
| `ParameterAbsorption.RemoveIsIdempotent` | templates/entrypoints/internal/config/parameters.go:128-214 | Removing a parameter twice equals removing it once exactly when no other line ends in a CR. |
| `ParameterAbsorption.MergeParameterIsIdempotent` | templates/entrypoints/internal/config/parameters.go:20-36 | The same for the whole merge operation, for every raw value. |
| `ParameterAbsorption.LeftoverCRShows` | templates/entrypoints/internal/config/parameters.go:191-214 | A line that keeps a CR after normalisation breaks byte idempotence. |
| `ParameterAbsorption.NewlineValueShows` | templates/entrypoints/internal/config/parameters.go:128-189 | A value with a newline leaves a line behind that no later write removes. |
| `ParameterAbsorption.SeparatorShows` | templates/entrypoints/internal/config/parameters.go:172-177 | Removing an appended parameter leaves the separating blank line behind. |
| `ParameterAbsorption.EmptiedFileShows` | templates/entrypoints/internal/config/parameters.go:191-214 | Removing the only line and setting again gives a leading blank line: an emptied file reads back as one empty line. |
| `ParameterForms.ReadsAnyLineEnds` | templates/entrypoints/internal/config/parameters.go:191-201 | Lines are read back whatever mixture of line ends they have; a last line without one counts when it is not empty. |
| `ParameterForms.MergeItemsAre` | templates/entrypoints/internal/config/parameters.go:20-36 | A value list is the comma-separated items inside any white space and any quotation marks; an empty one stands for removal. |
| `ParameterForms.LinesSetValues` | templates/entrypoints/internal/config/parameters.go:128-189 | The new lines are the parameter, an equals sign and each value that is neither empty nor already set, in order. |
| `ParameterForms.NewLinesGoWhere` | templates/entrypoints/internal/config/parameters.go:128-189 | New lines go behind the last line that sets the parameter, or else behind the first one that is switched off, or else at the end behind a blank line; without preserving, the old lines are gone. |
| `RuleFiles.ReplaceIndexedParamsAtEnd` | templates/entrypoints/internal/config/parameters.go:85-123 | The in-place loops compute the specified rule file; a missing file fails without effect. |
| `RuleFiles.RulesAreTheSuffix` | templates/entrypoints/internal/config/parameters.go:85-123 | The rule lines are exactly the suffix of the file; before them stand the other lines in their order up to the last one that is not blank, and then one empty line when there are both. |
| `RuleFiles.RuleIsSpelled` | templates/entrypoints/internal/config/parameters.go:97-104 | A line is a rule to be replaced exactly when one of the parameter names and an equals sign stand directly behind its leading white space. |
| `RuleFiles.LastRulesWin` | templates/entrypoints/internal/config/parameters.go:85-123 | Writing rules e1 then e2 gives the file of e2 alone, byte for byte, exactly when no other line that stays ends in a CR. |
| `RuleFiles.ListingGivesRules` | templates/entrypoints/internal/config/parameters.go:64-83 | The i-th rule line references the unique variable with index i across all prefixes. |
| `RuleFiles.EnumeratePrefixes` | templates/entrypoints/internal/config/parameters.go:65-68 | The keys of the rule table, in any order. |
| `RuleFiles.ConfigureRules` | templates/entrypoints/internal/config/item_key_rules.go:19-27 | End to end: rejected environments and missing files change nothing; otherwise the file ends with one rule per variable in index order, for every order of the table. |
| `RuleFiles.LastEnvironmentWins` | templates/entrypoints/internal/config/item_key_rules.go:19-27 | Configuring from one environment and then another leaves the file of the second alone, under the exact condition on CRs. |
| `RuleFiles.ItemKeyTable` | templates/entrypoints/internal/config/item_key_rules.go:9-14 | The item key table satisfies the conditions of the rule results. |
| `RuleFiles.ToolAccessTable` | templates/entrypoints/internal/config/tool_access_rules.go:10-15 | The tool access table satisfies the conditions of the rule results. |
| `ClickHouseSafety.HistoryKeepsInv` | templates/entrypoints/internal/clickhouse/schema.go:90-204 | Every step of every history keeps the system invariant, and stores only grow. |
| `ClickHouseSafety.DistributedTablesAreServed` | templates/entrypoints/internal/clickhouse/schema.go:90-140 | Over every history (partial DDL, failures, restarts, overlapping runs): a Distributed table on any node has its local table on all nodes, and that has its database on all nodes. |
| `ClickHouseSafety.FinishedMeansPrepared` | templates/entrypoints/internal/clickhouse/schema.go:90-204 | A finished run has its database and every table on every node it looks at, of which there is one at least, for good; with creation disabled it sent nothing. |
| `ClickHouseSafety.RepeatedPrepareIsReadOnly` | templates/entrypoints/internal/clickhouse/schema.go:170-204 | Once everything is in place no later run of the schema sends DDL, whatever else happens. |
| `ClickHouseSafety.FinishedAloneIsDistributed` | templates/entrypoints/internal/clickhouse/schema.go:142-168 | A finished cluster run with no other writer has every unsuffixed table Distributed on every node. |
| `ClickHouseSafety.EngineRejectionSendsNothing` | templates/entrypoints/internal/clickhouse/schema.go:105-115 | A run rejected by its engine check has no DDL at any step of its whole history, before or after, and stays failed; the check leaves the cluster as it is. |
| `ClickHouseClient.Client.CheckDistributedTables` | templates/entrypoints/internal/clickhouse/schema.go:142-168 | The engine query answers whether a requested table with another engine exists; it sends nothing. |
| `ClickHouseClient.Client.CheckCluster` | templates/entrypoints/internal/clickhouse/schema.go:97-115 | Counting replicas and checking engines are steps of the run and send nothing. |
| `ClickHouseClient.Client.Ensure` | templates/entrypoints/internal/clickhouse/schema.go:176-204 | One object: checked, created when missing and allowed, checked again; the run moves on only when all nodes have it. |
| `ClickHouseClient.Client.EnsureTable` | templates/entrypoints/internal/clickhouse/schema.go:117-140 | One table: its local table and then, in a cluster, the Distributed table over it. |
| `ClickHouseClient.Client.EnsureAll` | templates/entrypoints/internal/clickhouse/schema.go:117-140 | The database and then every table in order. |
| `ClickHouseClient.Client.Prepare` | templates/entrypoints/internal/clickhouse/schema.go:90-140 | The imperative preparation is one run of the modelled system; nil means that there are nodes and every requested table stands on each of them (and, alone, is Distributed), an unknown value type is reported exactly when one has no schema, and disabled, rejected or repeated runs send no DDL. |
| `ClickHouseClient.Client.BuildNames` | templates/entrypoints/internal/clickhouse/schema.go:48-86 | The loop over the value types yields the table names, or stops exactly at a type without schema. |
| `ClickHouseTables.NamesAreAskedFor` | templates/entrypoints/internal/clickhouse/schema.go:48-86 | The tables of a schema are exactly those asked for: history for dbl, history_ and the type for every other requested type, the six of otel; there is no answer exactly when a requested type has no schema. |
| `ClickHouseTables.TasksAreWanted` | templates/entrypoints/internal/clickhouse/schema.go:113-137 | The objects a run works on are exactly the database, every table asked for, and in a cluster the local table of each. |
| `ClickHouseTables.AllThereStands` | templates/entrypoints/internal/clickhouse/schema.go:90-140 | When all of them are there, every requested table, and in a cluster its local table, is on every node looked at. |
| `ClickHouseTables.SentIsWanted` | templates/entrypoints/internal/clickhouse/schema.go:176-204 | Whatever a run sends creates one of the wanted objects, with the engine of that object, on the nodes that were reached. |
| `ClickHouseEndings.FailureHasReason` | templates/entrypoints/internal/clickhouse/schema.go:90-204 | Every failed run has a reason among its own steps: an unanswered request, no nodes, a foreign engine, a missing object with creation disabled, or one still missing after creation. |
| `ClickHouseEndings.RequestsAdvance` | templates/entrypoints/internal/clickhouse/schema.go:90-204 | Every answered request brings a run nearer to its end. |
| `ElasticsearchRuns.BuildItems` | templates/entrypoints/internal/elasticsearch/schema.go:36-53 | The object list of a schema, pipeline before index, given up at the first unknown type. |
| `ElasticsearchRuns.HistoryKeepsInv` | templates/entrypoints/internal/elasticsearch/schema.go:111-160 | Every step of every interleaving keeps the invariant; the store only grows. |
| `ElasticsearchSafety.StoredIndexHasPipeline` | templates/entrypoints/internal/elasticsearch/schema.go:121-160 | An index or template created by any run always has its pipeline, over every interleaving. |
| `ElasticsearchSafety.PutOnlyWhatWasMissing` | templates/entrypoints/internal/elasticsearch/schema.go:121-160 | A run puts an object only after it found the object and its legacy alternate absent and saw every earlier object. |
| `ElasticsearchSafety.FinishedMeansPresent` | templates/entrypoints/internal/elasticsearch/schema.go:121-160 | A finished run has every object of its schema, for good; without permission it put nothing. |
| `ElasticsearchSafety.FinishedHasSeenAll` | templates/entrypoints/internal/elasticsearch/schema.go:121-160 | A finished run has itself observed every object, even when its own create failed. |
| `ElasticsearchClient.Client.ObjectExists` | templates/entrypoints/internal/elasticsearch/schema.go:111-119 | The path and then the legacy template are looked up; the run moves as the model says. |
| `ElasticsearchClient.Client.EnsureObject` | templates/entrypoints/internal/elasticsearch/schema.go:127-158 | One turn of the loop: check, create, recheck, or fail. |
| `ElasticsearchClient.Client.Prepare` | templates/entrypoints/internal/elasticsearch/schema.go:121-160 | The imperative preparation is one run of the modelled system; nil means that every requested object stands, and an unknown value type is reported exactly when one has no schema. |
| `ElasticsearchObjects.ItemsAreAskedFor` | templates/entrypoints/internal/elasticsearch/schema.go:36-53 | The objects of a schema are exactly those of its requested types, dated or not; there is no answer exactly when a requested type has no mapping. |
| `ElasticsearchObjects.PresentStands` | templates/entrypoints/internal/elasticsearch/schema.go:121-160 | When all listed objects are there, so are the pipeline and the index of every requested type. |
| `ElasticsearchObjects.FailureHasReason` | templates/entrypoints/internal/elasticsearch/schema.go:121-160 | Every failed run has a reason among its own steps: an unanswered request, or an object that is missing and may not be created or was just created. |
| `ElasticsearchObjects.RequestsAdvance` | templates/entrypoints/internal/elasticsearch/schema.go:121-160 | Every answered request brings a run nearer to its end. |
| `Supervisor.ScheduleKeepsInv` | templates/entrypoints/internal/web/stack.go:68-134 | Every schedule keeps the bookkeeping of children, channel and results. |
| `Supervisor.SendersNeverBlock` | templates/entrypoints/internal/web/stack.go:74-86 | On every schedule a waiting goroutine can send at once: the buffered channel never blocks it. |
| `Supervisor.ReturnsAfterEveryChild` | templates/entrypoints/internal/web/stack.go:68-134 | The supervisor returns only after exactly one result of each started child, and returns the start error, the first finisher's error, or nil after a signal. |
| `Supervisor.EveryOtherChildIsTerminated` | templates/entrypoints/internal/web/stack.go:88-109 | The SIGTERM loop, child by child among exits and reports: no child is sent it twice, the first to finish and unstarted children never, and once the loop is over every other started child has been. |
| `Supervisor.KilledAtMostOnce` | templates/entrypoints/internal/web/stack.go:111-134 | The timer fires at most once; the Kill loop sends it to no child twice, only to started children, only after a timeout with all SIGTERMs out, and then to all of them. That a timeout can happen is TimerStaysArmed. |
| `Supervisor.WaitingIsForAChild` | templates/entrypoints/internal/web/stack.go:111-134 | While results are missing, one can be taken or some started child has yet to exit or report. |
| `Supervisor.NeverStuck` | templates/entrypoints/internal/web/stack.go:68-134 | Short of its return the supervisor has a next step of its own, except while it waits for a first result or signal, or for a started child that has not reported; then the kill timer can fire, or Kill has been sent to every started child. |
| `Supervisor.TimerStaysArmed` | templates/entrypoints/internal/web/stack.go:111-131 | On every schedule, while results are missing behind the SIGTERM loop and no timeout has happened, the timer can fire. |
| `Supervisor.FiredMeansKilled` | templates/entrypoints/internal/web/stack.go:116-131 | While results are missing behind the SIGTERM loop, the timer can fire or Kill has been sent to every started child. |
| `Supervisor.ReportsAreExits` | templates/entrypoints/internal/web/stack.go:74-134 | Every result the supervisor takes is how that child exited. |
| `Supervisor.OwnStepsAreBounded` | templates/entrypoints/internal/web/stack.go:68-134 | On every schedule the supervisor takes at most 4n + 5 steps of its own for n children. |
| `Endpoints.ParseEndpoints` | templates/entrypoints/internal/postgresql/endpoints.go:17-38 | The loop over the comma-separated parts computes the specified list and stops at the first bad part. |
| `Endpoints.PrintableExactly` | templates/entrypoints/internal/postgresql/endpoints.go:40-84 | One printed endpoint parses to itself exactly when its host is non-empty, trimmed and free of bracket trouble and its port is valid. |
| `Endpoints.PrintParseExactly` | templates/entrypoints/internal/postgresql/endpoints.go:17-95 | A printed list parses to that list exactly when it is not empty and every endpoint is printable; hosts with a colon are bracketed as in section 3.2.2 of RFC 3986. |
| `Endpoints.ConnectionLists` | templates/entrypoints/internal/postgresql/connection.go:71-85 | The host and port parameters are the comma-joined hosts and ports, in order. |
| `Endpoints.ListsStayAligned` | templates/entrypoints/internal/postgresql/connection.go:71-85 | For every accepted input both parameters split back into lists of one length, paired position by position. |
| `EndpointForms.AcceptsExactlySpelled` | templates/entrypoints/internal/postgresql/endpoints.go:17-95 | A part is accepted exactly when, trimmed, it is spelled as a plain or bracketed host with or without a valid port, and the endpoint has that host and that port, or the default one. |
| `EndpointForms.ListIsSpelled` | templates/entrypoints/internal/postgresql/endpoints.go:17-38 | No text at all stands for the local socket; comma-separated parts are accepted exactly when each is spelled as the endpoint in its place. |
| `JsonText.EscapeKeepsTokens` | templates/entrypoints/internal/web/history_provider.go:28-37 | Escaping apostrophes changes no token of any JSON text (strings as in section 7 of RFC 8259), so no decoded value. |
| `JsonText.PhpReadsOnlyEscaped` | templates/config/web/zabbix.conf.php:25-35 | Unescaped, the PHP helper reads a text as it was meant exactly when the text holds no apostrophe. |
| `JsonText.MarshalHasTokens` | templates/entrypoints/internal/web/history_provider.go:31 | The encoding of a value has exactly the tokens of the value, control and HTML escapes included. |
| `JsonText.PhpReadsProviders` | templates/config/web/zabbix.conf.php:25-35 | The stored text holds no apostrophe, the PHP quote replacement leaves it alone, and its tokens are those of the provider list. |
| `JsonValues.PhpDecodesProviders` | templates/config/web/zabbix.conf.php:25-35 | What PHP reads are the tokens of exactly one value, the provider list: tokens determine the value. |
| `JsonText.SetWebProviders` | templates/entrypoints/internal/web/history_provider.go:30-37 | The variable holds the escaped encoding and no other variable changes. |
| `Paths.CleanLeadsToTheSame` | templates/entrypoints/internal/bootstrap/files.go:26-41 | Cleaning a path does not change where it leads. |
| `Paths.SplitPathLeadsToTheSame` | templates/entrypoints/internal/storageprovider/schema.go:204-210 | Location and file name joined again lead to the split path exactly when it does not end in a slash behind a name. |
| `Paths.TrailingSlashShows` | templates/entrypoints/internal/storageprovider/schema.go:204-210 | With a trailing slash they differ. |
| `ProviderConfiguration.TrailingSlashIsAccepted` | templates/entrypoints/internal/storageprovider/json.go:146-158 | Path validation accepts such a path. |
| `OrderedKeys.SortedKeys` | templates/entrypoints/internal/storageprovider/schema.go:213 | Visiting the keys in any order and sorting them gives the one ordered list. |
| `NativeOptions.QuoteIsEscape` | templates/entrypoints/internal/storageprovider/json.go:160-164 | The two replacements together put one backslash before every backslash and quotation mark. |
| `NativeOptions.RenderNative` | templates/entrypoints/internal/storageprovider/schema.go:203-229 | The path split and the option loop compute the specified text for every order of the map. |
| `NativeOptions.RendersExactly` | templates/entrypoints/internal/storageprovider/json.go:166-183 | Rendering fails exactly on a line break or a value that is no string, number, flag or list of types. |
| `NativeOptions.NativeRendersExactly` | templates/entrypoints/internal/storageprovider/schema.go:203-229 | The same for whole providers, after the path split. |
| `NativeOptions.SplitIs` | templates/entrypoints/internal/storageprovider/schema.go:204-210 | What the path split leaves at every key: base name, directory under the location key, everything else as given. |
| `NativeOptions.SettingsRead` | templates/entrypoints/internal/storageprovider/schema.go:212-228 | The reference parser undoes the joining of any list of quoted and bare settings. |
| `NativeOptions.NativeParses` | templates/entrypoints/internal/storageprovider/schema.go:203-229 | The reference parser returns the provider and the settings behind its fields from every rendered text. |
| `NativeOptions.RenderedAlike` | templates/entrypoints/internal/storageprovider/schema.go:203-229 | Two providers render alike exactly when their names are equal and their fields agree (true with 1, false with 0, types that join alike, absolute paths with equal directory and name). |
| `NativeOptions.CommaFreeTypesAgree` | templates/entrypoints/internal/storageprovider/schema.go:219-221 | Lists of comma-free type names render alike exactly when they are equal. |
| `NativeOptions.CommaInTypeIsLost` | templates/entrypoints/internal/storageprovider/schema.go:219-221 | A comma in a type name is lost. |
| `NativeOptions.AgreeingPathsLeadToTheSame` | templates/entrypoints/internal/storageprovider/schema.go:204-210 | Absolute paths with equal directory and name, not ending in a slash, lead to the same file. |
| `ProviderConfiguration.ParseValueTypes` | templates/entrypoints/internal/storageprovider/schema.go:244-260 | A list of types is accepted exactly when it is a non-empty array of non-empty names without line breaks; the result keeps first occurrences. |
| `ProviderConfiguration.ValidateFields` | templates/entrypoints/internal/storageprovider/schema.go:158-180 | The map loop, in any order, accepts exactly the valid fields and replaces the list of types. |
| `ProviderConfiguration.ApplyAllSecrets` | templates/entrypoints/internal/storageprovider/json.go:103-131 | The loop over the secret registry computes the specified fields or fails. |
| `ProviderConfiguration.Validate` | templates/entrypoints/internal/storageprovider/schema.go:151-201 | Validation of one provider equals its specification, whose acceptance is NativeAcceptance.RendersExactlyWhen and whose defaults are NativeMeaning.VerificationDefaults. |
| `ProviderConfiguration.FilterVariables` | templates/entrypoints/internal/storageprovider/indexed.go:16-39 | The environment loop rejects exactly the environments with a credential or schema beside no provider, and keeps exactly the provider variables. |
| `ProviderConfiguration.IndexedNames` | templates/entrypoints/internal/storageprovider/schema.go:110-120 | The provider names are PREFIX_0 to PREFIX_n-1, exactly the variables of the family that are neither credentials nor schemas; the limit is checked. |
| `NativeConversion.Configuration.constructor` | templates/entrypoints/internal/storageprovider/configuration.go:29-35 | A new configuration has a valid (empty) cache. |
| `NativeConversion.Configuration.Decode` | templates/entrypoints/internal/storageprovider/configuration.go:56-67 | Decoding through the cache gives what decoding now would give, and keeps the cache valid. |
| `NativeConversion.Configuration.ConfigsToPrepare` | templates/entrypoints/internal/storageprovider/configuration.go:38-54 | Looking at the providers to prepare equals the cache-free specification and changes no variable. |
| `NativeConversion.Configuration.DeleteSecrets` | templates/entrypoints/internal/storageprovider/json.go:133-144 | Removes exactly the credential variables of one provider. |
| `NativeConversion.Configuration.RenderAll` | templates/entrypoints/internal/storageprovider/schema.go:41-58 | Either every provider is convertible and all native texts are returned, or none is; no variable changes. |
| `NativeConversion.Configuration.WriteValues` | templates/entrypoints/internal/storageprovider/schema.go:60-63 | Writing the values and deleting credentials in any order gives one environment. |
| `NativeConversion.Configuration.ConfigureNative` | templates/entrypoints/internal/storageprovider/schema.go:40-68 | All or nothing: success exactly for convertible environments, the result a function of the old variables only, and no change on error; NativeMeaning.NativeSays reads the written texts back. |
| `NativeConversion.SecretsEndInLetters` | templates/entrypoints/internal/bootstrap/provider_secrets.go:22-29 | Provider names and credential variables never meet. |
| `NativeConversion.ConversionIsExact` | templates/entrypoints/internal/storageprovider/schema.go:40-68 | JSON providers get their native text, their credentials and all _SCHEMA variables are gone, every other variable is as it was. |
| `NativeConversion.ConversionIsIdempotent` | templates/entrypoints/internal/storageprovider/schema.go:40-68 | Converting a converted environment changes nothing. |
| `NativeConversion.ConfigureProviders` | templates/entrypoints/internal/storageinit/prepare.go:50-61 | Numbering, looking at the schemas and converting as a whole: any error leaves the environment as it was. |
| `ProviderOptions.SecretsOverrideFields` | templates/entrypoints/internal/storageprovider/json.go:103-131 | Separate credentials override JSON fields; it fails exactly when a file secret is also a field; no other field changes. |
| `ProviderOptions.ValidatedIsReady` | templates/entrypoints/internal/storageprovider/schema.go:151-201 | A validated provider meets everything that rendering and its reference parser rely on. |
| `ProviderOptions.RenderedParses` | templates/entrypoints/internal/storageprovider/schema.go:53-57 | The native text of a decoded provider parses back to its name and settings. |
| `ProviderOptions.ProvidersRenderAlike` | templates/entrypoints/internal/storageprovider/schema.go:53-57 | Two decoded providers get the same native text exactly when their names are equal and their fields agree. |
| `ProviderOptions.ImageParametersAreGood` | templates/entrypoints/internal/storageprovider/history.go:5-31 | The history and telemetry parameters meet the conditions of these results. |
| `ProviderConfiguration.FirstNamesGrow` | templates/entrypoints/internal/storageprovider/schema.go:249-258 | One item more adds its name exactly when no item before it has that name. |
| `NativeMeaning.NativeSays` | templates/entrypoints/internal/storageprovider/schema.go:151-229 | The settings read back from a native text are exactly: the JSON fields with the supplied credentials, TLS files split into location and name, value_types for types, and the telemetry defaults. |
| `NativeMeaning.VerificationDefaults` | templates/entrypoints/internal/storageprovider/telemetry.go:36-45 | Behind an https url a telemetry provider verifies peer and host unless its JSON says otherwise; any other provider has these settings exactly as its JSON gives them. |
| `NativeAcceptance.CredentialsFill` | templates/entrypoints/internal/storageprovider/json.go:103-131 | Which variable fills which field of a provider, for all six credentials. |
| `NativeAcceptance.RendersExactlyWhen` | templates/entrypoints/internal/storageprovider/schema.go:151-229 | A JSON provider is converted exactly when its JSON reads, names a provider of the parameter, has only allowed keys and well-formed values, gives no file credential twice, and everything fits on a line. |
| `ProviderNames.NamesAcceptedWhen` | templates/entrypoints/internal/storageprovider/indexed.go:16-50 | Provider names are accepted exactly when credentials and schemas with a value stand beside their provider and the providers are numbered from zero without a gap, none empty, up to the limit. |
| `ProviderNames.FamiliesAcceptedWhen` | templates/entrypoints/internal/storageprovider/schema.go:110-120 | For the two families of the images: any number of history providers, and at most the one telemetry provider ZBX_TELEMETRYPROVIDER_0. |
| `ProviderNames.CredentialBaseIs` | templates/entrypoints/internal/storageprovider/indexed.go:52-60 | A variable is a credential exactly when it has one of the thirteen endings, and belongs to the provider before the longest of them. |
| `ProviderNames.RemovedVariables` | templates/entrypoints/internal/storageprovider/json.go:133-144 | The variables that go with a converted provider are exactly its name with one of fifteen endings. |
| `ProviderNames.PreparedAre` | templates/entrypoints/internal/storageprovider/configuration.go:38-54 | Schemas are prepared for exactly the providers with schema options, in order, and only when each of them is JSON that decodes. |
| `SecretPlan.FindBases` | templates/entrypoints/internal/bootstrap/secret_registry.go:203-236 | The environment loop finds exactly the providers named by some variable, in any order, or an invalid index. |
| `SecretPlan.ProviderPlan` | templates/entrypoints/internal/bootstrap/secret_registry.go:200-273 | The provider entries in order of their names, or failure exactly for an invalid index or a credential without its provider. |
| `SecretPlan.BuildPlan` | templates/entrypoints/internal/bootstrap/secret_registry.go:37-158 | The plan of one image and command, independent of the order of the environment; SecretRegistry.PlanIsRegistry lists it entry by entry. |
| `SecretPlanLaws.EntriesAreApart` | templates/entrypoints/internal/bootstrap/secret_registry.go:37-158 | Two entries never share a variable, and two file entries never share a managed path. |
| `SecretPlanProviders.StemsDetermine` | templates/entrypoints/internal/bootstrap/secret_registry.go:250-271 | A provider secret variable determines its provider and its secret. |
| `SecretPlanProviders.PlanIsApart` | templates/entrypoints/internal/bootstrap/secret_registry.go:37-158 | For every environment, image and command the entries of the plan are apart. |
| `SecretPlanFits.PlanFits` | templates/entrypoints/internal/bootstrap/secret_registry.go:37-158 | Every plan keeps to its categories, has distinct aliases that are no entries, and plans both Vault files for a server or proxy service. |
| `SecretPlanFits.ManagedPathsAreClean` | templates/entrypoints/internal/bootstrap/secret_files.go:125-153 | Every managed file of every plan is named by its clean path, directly in the directory of its category. |
| `SecretRegistry.PlanIsRegistry` | templates/entrypoints/internal/bootstrap/secret_registry.go:37-273 | For every image, command and environment: exactly which file entries, value entries and aliases the plan holds, by name, with the directories of each and exactly when it is active; inline database credentials of MySQL and PostgreSQL are active exactly without a Vault path, root credentials always. |
| `SecretRegistry.BasesAre` | templates/entrypoints/internal/bootstrap/secret_registry.go:200-236 | The providers that are planned are exactly those named by themselves or by a variable of their own that this image reads. |
| `SecretEffects.PlanFailsExactly` | templates/entrypoints/internal/bootstrap/secret_registry.go:200-273 | Planning fails exactly when the image reads providers and a provider variable has no number in its place, or a planned provider has a credential and no value. |
| `SecretEffects.DroppedAre` | templates/entrypoints/internal/bootstrap/secrets.go:124-133 | Exactly the provider sources that an image does not read are dropped. |
| `SecretEffects.CredentialsStay` | templates/entrypoints/internal/bootstrap/secrets.go:115-193 | After a successful run an inline database credential with no Vault path in its way keeps its value; root credentials always do. |
| `SecretLocations.LocalStaysInside` | templates/entrypoints/internal/bootstrap/secret_files.go:200-202 | Relative paths are accepted exactly when no beginning of them leads above their directory. |
| `SecretLocations.LocatedExactly` | templates/entrypoints/internal/bootstrap/secret_files.go:196-258 | Which file a given path stands for: an absolute one itself; a relative one must stay inside and name a file, the runtime directory before the external one for standard secrets, otherwise exactly one of the external and the deprecated place. |
| `SecretLocations.FilesResolveExactly` | templates/entrypoints/internal/bootstrap/secret_files.go:125-163 | A list of file entries is resolved exactly when each entry by itself has one source and a file that is found, and every given file is the one found before any entry was resolved. |
| `SecretLocations.EntriesResolveExactly` | templates/entrypoints/internal/bootstrap/secrets.go:146-155 | The entries of every plan are resolved exactly when each of them is sound by itself. |
| `SecretLocations.SecretIsTrimmed` | templates/entrypoints/internal/bootstrap/secret_files.go:191 | Of a secret file exactly the line ends at its end are left out. |
| `SecretFiles.OneFileDone` | templates/entrypoints/internal/bootstrap/secret_files.go:125-163 | One file entry resolved alone: its outcome, and nothing else touched. |
| `SecretFiles.OneValueDone` | templates/entrypoints/internal/bootstrap/secret_files.go:165-194 | One value entry resolved alone: its outcome, and nothing else touched. |
| `SecretFiles.FilesResolve` | templates/entrypoints/internal/bootstrap/secrets.go:146-150 | The file entries one after the other come out as if each were alone. |
| `SecretFiles.ValuesResolve` | templates/entrypoints/internal/bootstrap/secrets.go:151-155 | The value entries one after the other come out as if each were alone. |
| `SecretResolution.AliasesMerge` | templates/entrypoints/internal/bootstrap/secret_files.go:87-107 | Merging fails exactly when an alias contradicts its new name, and otherwise moves each legacy value over and removes it. |
| `SecretDirectoryLaws.HoldingLocationIsTarget` | templates/entrypoints/internal/bootstrap/secret_files.go:284-291 | A shared directory that holds a managed secret is the managed directory itself. |
| `SecretDirectoryLaws.VaultStepKeeps` | templates/entrypoints/internal/bootstrap/secret_files.go:277-306 | Preparing the Vault directories keeps an inline secret where the plan put it, and leaves no copy without a source. |
| `SecretDirectoryLaws.OutsideAuthorities` | templates/entrypoints/internal/bootstrap/secret_ca.go:104-186 | No managed secret lies in a directory of certificate authorities. |
| `SecretResolutionLaws.EntriesHold` | templates/entrypoints/internal/bootstrap/secrets.go:146-155 | All entries together are resolved as specified. |
| `SecretResolutionLaws.VaultHolds` | templates/entrypoints/internal/bootstrap/secret_files.go:277-306 | The Vault step disturbs no other entry. |
| `SecretResolutionLaws.FinishHolds` | templates/entrypoints/internal/bootstrap/secrets.go:157-190 | All directory steps behind the entries keep every outcome. |
| `SecretResolutionLaws.SecretsResolve` | templates/entrypoints/internal/bootstrap/secrets.go:115-193 | After a successful run every inline and inactive variable is gone, an active file variable is set exactly when one source was given after alias merging, inline bytes sit at their own managed path, legacy names are gone and unrelated variables are unchanged. |
| `SecretFileLaws.OnlyOwnFilesChange` | templates/entrypoints/internal/bootstrap/secrets.go:115-193 | Apart from its own managed copies and prepared directories a run changes no file, except that stale provider files are gone. |
| `SecretAuthorities.DirectoryInUse` | templates/entrypoints/internal/bootstrap/secret_ca.go:188-233 | Of two directories the one that holds files is in use, the current one when neither does, and holding both is an error. |
| `SecretAuthorities.CopiesAre` | templates/entrypoints/internal/bootstrap/secret_ca.go:104-186 | A prepared directory mirrors its source: the same names, the same bytes, nothing deeper, and nothing else changed. |
| `SecretAuthorities.GlobalCaIs` | templates/entrypoints/internal/bootstrap/secret_ca.go:31-58 | The global authorities: a given location stays, otherwise they are copied from the directory in use, or the location and the copies are gone. |
| `SecretAuthorities.WebApmCaIs` | templates/entrypoints/internal/bootstrap/secret_ca.go:60-84 | The APM authorities: a given location stays, otherwise they are copied with the file given by itself, or the location and the copies are gone. |
| `SecretAuthorities.ProviderCaIs` | templates/entrypoints/internal/bootstrap/secret_ca.go:86-102 | The authority of a provider is the only file in a directory of its own, which its location names. |
| `SecretAuthorities.VaultFilesAre` | templates/entrypoints/internal/bootstrap/secret_files.go:268-306 | Each Vault file stays where its location holds it, or is put beside copies of the files of that location, which must not hold its name. |
| `SecretAuthorities.LocationsAre` | templates/entrypoints/internal/bootstrap/secret_ca.go:11-29 | The two locations of shared TLS files, each decided by itself. |
| `SecretAuthorities.StepsAre` | templates/entrypoints/internal/bootstrap/secrets.go:157-190 | Which directory steps run for which image and command, and in which order. |
| `SecretAuthorities.CleanedAre` | templates/entrypoints/internal/bootstrap/secret_files.go:12-85 | A run first clears exactly the managed authorities and files of provider secrets in the families of its image and command. |
| `SecretResolver.DropProviderSecretSources` | templates/entrypoints/internal/bootstrap/secret_registry.go:160-178 | The map loop removes exactly the matching sources. |
| `SecretResolver.CleanupStaleProviderSecrets` | templates/entrypoints/internal/bootstrap/secret_files.go:12-85 | Removes exactly the managed provider files of the families of this command. |
| `SecretResolver.NormalizeEmptySecretSources` | templates/entrypoints/internal/bootstrap/secret_files.go:109-123 | Removes exactly the empty sources of the plan. |
| `SecretResolver.NormalizeSecretAlias` | templates/entrypoints/internal/bootstrap/secret_files.go:87-107 | One alias merged as specified, or a contradiction reported. |
| `SecretResolver.ResolveFileSecret` | templates/entrypoints/internal/bootstrap/secret_files.go:125-163 | Deleting, writing and locating one file secret reaches the specified state. |
| `SecretResolver.ResolveValueSecret` | templates/entrypoints/internal/bootstrap/secret_files.go:165-194 | Reading one value secret reaches the specified state. |
| `SecretResolver.PrepareManagedCaDir` | templates/entrypoints/internal/bootstrap/secret_ca.go:104-186 | Clearing and copying in any order gives the specified directory, or fails on a name supplied twice or a missing file. |
| `SecretResolver.PrepareVaultTlsFile` | templates/entrypoints/internal/bootstrap/secret_files.go:277-306 | One Vault file prepared as specified. |
| `SecretResolver.PrepareVaultTlsDirectory` | templates/entrypoints/internal/bootstrap/secret_files.go:323-351 | The managed directory holds the copies and the Vault file, or a name conflict is reported. |
| `SecretResolver.ResolveSharedTlsDirectories` | templates/entrypoints/internal/bootstrap/secret_ca.go:11-29 | Both shared locations are set, or both candidates of one are in use. |
| `SecretResolver.ResolveGlobalCa` | templates/entrypoints/internal/bootstrap/secret_ca.go:31-58 | The global authorities are prepared, or their directory removed, as specified. |
| `SecretResolver.ResolveWebApmCa` | templates/entrypoints/internal/bootstrap/secret_ca.go:60-84 | The APM authorities are prepared, or their directory removed, as specified. |
| `SecretResolver.ResolveProviderCas` | templates/entrypoints/internal/bootstrap/secret_ca.go:86-102 | The authorities of every provider entry are prepared in order. |
| `SecretResolver.ResolveSecrets` | templates/entrypoints/internal/bootstrap/secrets.go:115-193 | The imperative pipeline succeeds exactly when its specification has a result, and reaches it, unless a file operation fails. |

## Left out

- ClickHouseClient.Client.Prepare: the set of nodes is fixed for a run and tables are never dropped, as in the source's own assumption; the texts of queries and DDL are opaque.
- ElasticsearchSafety.StoredIndexHasPipeline: the store only grows; deleting an object between two requests is not modelled.
- Supervisor.ReturnsAfterEveryChild: the supervisor is a machine over its steps, not a loop in Dafny, because its termination depends on the children; start order, select, the timer and every turn of the signalling loops are its steps.
- RuleFiles.ConfigureRules: for the tool access rules, restoring the runtime file from its template is not part of this model.
- JsonText.SetWebProviders: numbers and literals are opaque words, and WebProviders itself (which fields a provider shows) is not modelled.
- NativeOptions.RenderedAlike: numbers are taken by their shortest decimal text, as the formatting call prints them.
- SqlFixpoints.PrintSplitExactly: that statements start as statement text is part of the condition; whether some list that breaks it could still come back is left open.
- SecretDirectories and SecretResolver: files are a map from cleaned paths to bytes; permissions, symbolic links, temporary names, atomic renames, directories as entries of their own and the hash links made for authority directories are not modelled. Any file operation may fail, and then changes nothing.
- SecretLocations.EntriesResolveExactly: a home directory inside the image's own secrets, where one entry could name the managed copy of another, is shut out.
- Text is ASCII: the library's Unicode white space, case folding and invalid UTF-8 are not modelled.
- Error texts and log messages, and which of several errors is reported first where the source reads a map, are not modelled.
- JSON decoding is a parameter of the provider and secret models; only string literals and token structure are modelled, for the apostrophe property.
- HTTP clients, TLS configuration, certificate pools, Vault requests and database sessions appear only as steps that succeed, fail or answer.
- UpdateIndexedParameter, environment defaults, port checks, retry loops, the Windows variants and the command mains would add easy members only.
