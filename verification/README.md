# Verification of ShardingSphere-Go

A Dafny model of the sharding proxy: how a statement is parsed, routed to data nodes, rewritten,
run concurrently and merged; how the result is written in MySQL packets and a client logs in; how
ids are generated; how distributed transactions and connection pools behave. Each module follows
one part of the program; methods that update state are methods over classes or loops, and each is
tied to a specification function about which the properties are proved.

| module | part of the program |
|---|---|
| `Bits` | Go's 64-bit integer operations, bit by bit |
| `GoStrings`, `Regex` | the functions of `strings`, `strconv` and `regexp` that the program uses; `Regex.Match` is a backtracking matcher with Go's order of preference |
| `DataNodes`, `Expansion` | `actualDataNodes`: parsing, printing, expanding |
| `Evaluators`, `Reach` | shard arithmetic, and which nodes it can reach |
| `Extract`, `Keywords` | SQL text: the sharding value in the WHERE clause |
| `Rewrite`, `Identifiers`, `Qualify` | SQL text: the table name, reading it and rewriting it |
| `Routing`, `Meaning` | building a route, executing it, and what a sharded SELECT means |
| `FanOut`, `Merge` | one goroutine per node, a mutex, a WaitGroup; the merge of what they collect |
| `Pools` | the shared map of connection pools under every interleaving |
| `Transactions`, `TransactionRuns` | the transaction manager, and its guarantees over runs |
| `LenEnc`, `Packets`, `ResultSet`, `Auth` | the MySQL wire format ("MySQL Packets", "Protocol::LengthEncodedInteger", "Text Resultset", "Protocol::HandshakeResponse41", "Native Authentication") |
| `Snowflake` | the id generator |

Main results:

- `Meaning.ShardedSelect`: a row-wise SELECT gives the rows of the logical table that satisfy it,
  whatever the goroutines' interleaving, whether it is broadcast or pruned by source, by table or
  by both. `Meaning.SelectFromText` starts from the text of the statement, with the columns it names,
  the spelling of its table and its white space, and derives the rewritten statements from it.
- `Merge.ExecuteOnMultipleNodes`: the merged answer does not depend on the interleaving, and every
  run ends (`FanOut.StepsDecrease`, `FanOut.NoDeadlock`).
- `TransactionRuns.TableInvariant`, `FirstFailure`, `NeverCommits`: conservation of physical
  transactions over every run, and what a failed commit leaves behind.
- `ResultSet.ReplyRoundTrip`: a client reads back exactly the columns and cells that were sent.
- `DataNodes.ParsePrint` and `CrashIff`, `Expansion.ExpandersAgree`, `Extract.ExtractionInverts`,
  `Keywords.ExtractionIff`, `Rewrite.RewriteIsTokenMap`, `Qualify.SpellingsAgree` and
  `FourSpellings`: text in, meaning out, with the exact condition where the code fails.
- `Pools.*`, `Snowflake.IdsStrictlyIncrease`, `Evaluators.OneIndex`, `Reach.ReachableCount`.

## Where the program and its own documents differ

The model follows the code in each case.

- `config/config_test.go:20` and `:33-34` expect a trailing underscore in the parsed patterns; the
  code strips it (`DataNodes.ParsePrint`), and the expanders put it back.
- `config/config.yaml:51` and `:55` spell the expression `ds_$->{...}`. The pattern wants `${`, so
  the text itself becomes the source's name for every key (`Evaluators.ArrowIsVerbatim`).
- The comment of `sqlrouter/router.go:257` promises `ds_${user_id % 2}` gives `ds_0`; the code
  gives `ds__0`, because it adds an underscore to a prefix that has one. A routed name is a node's
  name exactly when the prefix equals the rule's pattern (`Routing.RoutedNodeExists`).
- A data source range `[0,0]` is taken as "fixed" by the router but not by the parser's expander:
  the two agree exactly under the condition of `Expansion.ExpandersAgree`. With a data source range
  `[0,0]` they still agree when the table range is inverted, since both lists are empty then.
- `name.${a..b}` matches a pattern that asks for a group it does not have. Parsing panics exactly on
  the texts of this form that are not also of the two-range form (`DataNodes.CrashIff`).
- An auth response's declared length is checked with wrapping arithmetic: the exact bound is in
  `Auth.InBoundsIff`, and a packet that panics is in `Auth.OverflowPanics`.
- Ids are ordered by time except between the two sides of the wrap of the 41-bit time field: the
  first id after it is below the last ones before it (`Snowflake.PackWrapsAtTwo41`).
- Of `column IN (list)` the pattern removes the keyword and the parenthesis, so the branch meant for
  lists (`sqlrouter/parser.go:170-179`) sees the rest of the list. It is entered exactly when that
  rest, or any other value, begins with the letters of IN itself; then the first value is returned,
  without these letters when they are upper-case (`Extract.InListValue`, `InBranchCuts`):
  `id IN (INX, 5)` gives `X` (`Extract.InListLosesLetters`).
- The pattern tries `>` before `>=`, so the `=` stays in the value (`Extract.AtLeastValue`).
- The clause is cut at the first LIMIT, HAVING, ORDER BY or GROUP BY even inside a name or a value,
  and the condition at the first AND or OR between plain spaces, even inside a quoted value:
  `id = 5 AND limits = 3` gives the value `5 AND` (`Keywords.NameTakenForKeyword`). An AND next to a
  line break, a tab or a parenthesis is not seen: `id = 5`, a line break and `AND a = 1` give the
  value `5`, the line break and `AND a = 1` (`Keywords.LineBreakHidesAnd`), which is then hashed.
  `Keywords.ExtractionIff` says exactly when the value comes back all the same.
- A quoted value that begins or ends with a quote or a space does not come back, nor does bare text
  that the IN or BETWEEN branch changes (`Extract.ExtractionInverts` says exactly when a value does).
- FROM, INSERT INTO, UPDATE and DELETE FROM are searched for with plain spaces, and of a SELECT the
  first FROM is taken: `SELECT *`, a line break and `FROM db.t`, `DELETE  FROM db.t` with two spaces
  and `UPDATE`, a tab and `db.t` have no table, so they go to the default source as they stand, and
  `SELECT (SELECT 1 FROM x.u) FROM db.t` has the table `u)` (`Qualify.KeywordExamples`).
  `Qualify.SpellingsAgree` says exactly when the table is found.
- Text glued to a table name is read as a part of it: `INSERT INTO db.t(id)` gives `t(id)` and
  `DELETE FROM db.t;` gives `t;`, while between backticks the table is found
  (`Qualify.GluedExamples`). The four spellings of a qualified table agree exactly when the keyword is
  found and nothing but commas is glued to the name (`Qualify.FourSpellings`).
- The greeting offers CLIENT_DEPRECATE_EOF (`protocol/handshake.go:33`, `:143`), yet a reply always
  has an EOF packet after the columns. A client that accepts the offer takes it for the end of the
  rows and is out of step from there on (`ResultSet.DeprecatingSeesNoRows`).
- Every placeholder of an expression gets the index of the first one, whatever its own modulus
  (`Evaluators.OneIndex`).

## Model

| member | source | states |
|---|---|---|
| Snowflake.NextSequence | sqlrouter/sharding.go:181 | masking with 4095 is the remainder modulo 4096 |
| Snowflake.Spin | sqlrouter/sharding.go:182-186 | the overflow spin stops at the first clock reading past the last time, and stops at all once the clock advances |
| Snowflake.Generator.Generate | sqlrouter/sharding.go:167-197 | one call moves the generator by the step function over arbitrary clock readings and returns the packed id |
| Snowflake.PackIsSum | sqlrouter/sharding.go:192-194 | OR-ing shifted fields is an arithmetic sum, from which time, worker modulo 1024 and sequence are read back |
| Snowflake.PackWrapsAtTwo41 | sqlrouter/sharding.go:192-194 | the bound on the time is needed: one tick later the id drops |
| Snowflake.NextIsLater | sqlrouter/sharding.go:176-190 | every call moves to a later (time, sequence), also when the clock goes back |
| Snowflake.IdsStrictlyIncrease | sqlrouter/sharding.go:167-197 | over any run with any clock readings the ids strictly increase |
| Snowflake.WorkersNeverCollide | sqlrouter/sharding.go:167-197 | generators with different workers modulo 1024 never share an id |
| Snowflake.SameTickIsShort | sqlrouter/sharding.go:180-189 | two calls on one tick are as far apart as their sequences, so a tick has at most 4096 ids |
| LenEnc.Buffer.WriteLenEncInt | protocol/handshake.go:862-881 | the writer appends the codeword of the value |
| LenEnc.Buffer.WriteLenEncString | protocol/handshake.go:883-891 | length, then bytes |
| LenEnc.ReadLenEncInt | protocol/handshake.go:754-781 | the reader decodes, and fails exactly on a slice too short for its first byte |
| LenEnc.RoundTrip | protocol/handshake.go:754-881 | reading a written integer back, whatever follows, gives the value and its length 1, 3, 4 or 9 |
| LenEnc.PrefixFree | protocol/handshake.go:862-881 | no codeword is a prefix of another |
| LenEnc.NullIsNoCodeword | protocol/handshake.go:840-881 | no codeword starts with 0xfb or 0xff, so NULL is never taken for a length |
| LenEnc.LongFormIsAccepted | protocol/handshake.go:754-781 | the reader also accepts forms the writer never produces |
| LenEnc.TakeRoundTrip | protocol/handshake.go:883-886 | a written string is cut off a longer input exactly |
| Packets.Conn.WritePacket | protocol/handshake.go:370-376 | three length bytes, the sequence byte, the payload |
| Packets.Conn.ReadPacket | protocol/handshake.go:378-403 | reading consumes one packet, or fails as the specification of the input says |
| Packets.HeaderLength | protocol/handshake.go:388 | OR-ing the shifted header bytes is the little-endian length |
| Packets.FrameRoundTrip | protocol/handshake.go:370-403 | a packet reads back exactly when its payload is not empty and shorter than 2^24 bytes |
| Packets.FramesAppend | protocol/handshake.go:571-607 | packet groups written one after the other are one group with ids running on modulo 256 |
| ResultSet.WriteColumnDefinitionPacket | protocol/handshake.go:789-830 | the packet of a column's definition, for any catalog, schema, table and column names and any length, type, flags and decimals |
| ResultSet.WriteTextRowPacket | protocol/handshake.go:840-860 | one cell per column in column order, NULL for a missing or nil value |
| ResultSet.SendOKPacketWithStats | protocol/handshake.go:341-357 | the OK packet with both counters as unsigned length-encoded integers |
| ResultSet.WriteColumns | protocol/handshake.go:578-587 | the loop writes every definition under consecutive ids |
| ResultSet.WriteRows | protocol/handshake.go:595-602 | the loop writes every row under consecutive ids |
| ResultSet.SendQueryReply | protocol/handshake.go:563-607 | the COM_QUERY reply is the whole framed reply from the command's id plus one |
| ResultSet.SendExecuteReply | protocol/handshake.go:680-715 | the COM_STMT_EXECUTE reply is the same framed reply |
| ResultSet.SamePaths | protocol/handshake.go:563-715 | both paths emit identical bytes for one result |
| ResultSet.RowIsNotEof | protocol/handshake.go:832-860 | a row below the packet limit is never mistaken for an EOF packet |
| ResultSet.CellsRoundTrip | protocol/handshake.go:840-860 | the cells of a row read back, NULL as NULL and bytes as bytes |
| ResultSet.ReplyRoundTrip | protocol/handshake.go:563-607 | a client that reads packet by packet gets exactly the column names, each row's cells in order, and leaves what follows |
| ResultSet.ReplyIds | protocol/handshake.go:571-607 | the k-th id of a reply is the first plus k modulo 256 |
| ResultSet.DeprecatingSeesNoRows | protocol/handshake.go:140-607 | a client that accepted CLIENT_DEPRECATE_EOF reads the column names and no rows, and the rows are left over in front of the next reply |
| Auth.ReceiveAuth | protocol/handshake.go:177-267 | position by position the parser is the specification, with Go's wrapping bounds check |
| Auth.PrintParse | protocol/handshake.go:177-267 | capabilities, a NUL-free user and a token printed in the form the capabilities select are parsed back unchanged |
| Auth.InBoundsIff | protocol/handshake.go:185-262 | the slice stays in bounds or an error is reported exactly when declared length and position stay below 2^63 |
| Auth.OverflowPanics | protocol/handshake.go:225-262 | a short packet that declares a token of 2^63-1 bytes takes the slice out of bounds |
| Auth.BelowTwo62IsSafe | protocol/handshake.go:185-262 | so every declared length below 2^62 is safe |
| Auth.XorBytes | protocol/handshake.go:742-752 | the loop computes the bytewise XOR over the common length |
| Auth.XorUndoes | protocol/handshake.go:742-752 | XOR-ing twice with the same bytes gives the first argument back |
| Auth.XorInjective | protocol/handshake.go:742-752 | one mask, one result: one argument |
| Auth.GetAuthorityUser | config/config.go:368-387 | the loop finds the first user that the name equals or whose pattern it matches |
| Auth.HostPattern | config/config.go:378-387 | of name@host only the name counts |
| Auth.AuthenticateNative | protocol/handshake.go:269-322 | for SHA-1 as any function with 20-byte results, exactly the honest client's token is accepted |
| Auth.TokenReveals | protocol/handshake.go:301-311 | XOR of a valid token with the check value is SHA-1 of the password |
| Transactions.TransactionManager.BeginTransaction | sqlrouter/transaction.go:57-81 | the table, the phases and the result move as the step of Begin |
| Transactions.TransactionManager.JoinTransaction | sqlrouter/transaction.go:84-114 | as the step of Join: not found, not active, already joined, driver error or a new transaction |
| Transactions.TransactionManager.CommitTransaction | sqlrouter/transaction.go:117-144 | as the step of Commit for any iteration orders of the map |
| Transactions.TransactionManager.RollbackTransaction | sqlrouter/transaction.go:147-164 | as the step of Rollback |
| Transactions.TransactionManager.CloseTransaction | sqlrouter/transaction.go:179-197 | as the step of Close |
| TransactionRuns.CommitListIs | sqlrouter/transaction.go:130-139 | the commit loop, pointwise: committed up to the first refusal, that one failed, the others untouched |
| TransactionRuns.RollbackListIs | sqlrouter/transaction.go:157-159 | the rollback loop, pointwise: open ones are rolled back, ended ones unchanged |
| TransactionRuns.FailedCommit | sqlrouter/transaction.go:130-139 | for any orders: exactly the transactions before the failing one are committed, the others end without a commit, the context stays Active in the table |
| TransactionRuns.FailedCommitKeeps | sqlrouter/transaction.go:130-139 | a failed commit leaves no transaction of the context open |
| TransactionRuns.FirstFailure | sqlrouter/transaction.go:117-144 | the first failed commit of an id: state afterwards, in full |
| TransactionRuns.NeverCommits | sqlrouter/transaction.go:84-197 | after a failed commit no later commit of the id succeeds, whatever calls come between |
| TransactionRuns.StepKeeps | sqlrouter/transaction.go:57-197 | every operation keeps the invariant |
| TransactionRuns.TableInvariant | sqlrouter/transaction.go:57-197 | in every reachable state: entries Active under their ids, one owner per physical transaction, none open outside the table, Committed means all committed, rolled back or closed without a failed commit means none |
| Pools.NextInv | sqlrouter/router.go:575-623 | every step of every thread keeps lock, map and pools consistent |
| Pools.WritesAreExclusive | sqlrouter/router.go:586-622 | the map changes only under the write lock without readers: a publication under a free name, or the removal of a closed pool |
| Pools.OnePoolPerGeneration | sqlrouter/router.go:575-623 | at most one pool of a name is opened between its removals |
| Pools.CallersAgree | sqlrouter/router.go:575-623 | callers for one name get the same pool until it is removed |
| Pools.EntryStays | sqlrouter/router.go:575-623 | a published entry is never overwritten |
| Pools.NoPoolIsLost | sqlrouter/transaction.go:290-300 | with the write lock free, every pool ever opened is published or was closed without an error |
| Pools.SomeoneProceeds | sqlrouter/router.go:575-623 | no deadlock: in every reachable state, until all callers and closers are done, some thread can step, and if a lock is held its holder can |
| FanOut.NextInv | sqlrouter/router.go:465-512 | every step of the spawning thread and of every goroutine keeps the invariant; the mutex makes load and store of the slices atomic |
| FanOut.StepsDecrease | sqlrouter/router.go:473-512 | every step brings the end nearer, so every run is finite |
| FanOut.NoDeadlock | sqlrouter/router.go:473-512 | until Wait has returned some thread can step |
| FanOut.AfterWait | sqlrouter/router.go:512-514 | after Wait the slices are permutations of the nodes' successes and failures, lengths summing to the node count |
| Merge.MergeSelectResults | sqlrouter/router.go:536-557 | the first result's columns and all rows in order; a single result unchanged |
| Merge.Respond | sqlrouter/router.go:516-533 | an error exactly when there are errors and no result; otherwise the merged figures |
| Merge.MergeIsOrderFree | sqlrouter/router.go:520-557 | affected count and row multiset do not depend on the order of arrival |
| Merge.LastIDIsOne | sqlrouter/router.go:525-527 | the insert id is 0 or some result's positive id |
| Merge.ExecuteOnMultipleNodes | sqlrouter/router.go:465-533 | over all interleavings: an error iff every node failed, rows the multiset union, the affected count the 64-bit sum, the id one of the nodes' |
| DataNodes.ParsePrint | config/config.go:466-570 | for all four canonical forms the ordered lazy patterns pick the right form and give back names and bounds |
| DataNodes.CrashIff | config/config.go:466-513 | parsing indexes a group its pattern does not have exactly on the texts p.${x..y}, p any nonempty text without a line break, that are not of the form p${x..y}.q${z..w} |
| DataNodes.BareRangeCrashes | config/config.go:500-513 | in particular on name.${a..b} for every plain name |
| Expansion.ExpandDataNodeRange | config/config.go:573-602 | the nested loops build the product of numbered sources and tables |
| Expansion.ExpandDataNodes | sqlrouter/router.go:365-438 | the branches and loops build the product of the targets, or the sentinel's pattern, or all names |
| Expansion.TwoRangeProduct | sqlrouter/router.go:365-438 | the broadcast of a two-range rule: (b-a+1)(d-c+1) distinct nodes, source i and table j at place i*w+j |
| Expansion.PrintParseExpand | config/config.go:466-602 | printing, parsing and expanding the two-range form gives the ordered product of its names |
| Expansion.ExpandersAgree | config/config.go:573-602 | the two expanders give the same list exactly when the table range is inverted or they name the same sources |
| Evaluators.HashString | sqlrouter/sharding.go:105-111 | both hash loops (also config/config.go:666-672) compute the base-31 polynomial wrapped to 64 bits |
| Evaluators.HashConcat | sqlrouter/sharding.go:105-111 | the hash of a concatenation from the hashes of its parts |
| Evaluators.GoModRange | sqlrouter/sharding.go:61 | Go's remainder lies in (-m, m), is nonnegative for nonnegative keys, and is congruent to the key |
| Evaluators.SameKey | sqlrouter/sharding.go:44-59 | a decimal string, an int and an int64 of one number shard alike |
| Evaluators.OneIndex | sqlrouter/router.go:240-362 | the inline strategy, the mod strategy, both expression evaluators and the two router names use one truncated remainder, that of the first placeholder, for an expression with any number of them, and panic together on modulus 0 |
| Evaluators.OnePlaceholder | sqlrouter/router.go:240-362 | with one placeholder the names are prefix, index and what follows; the router's append the index to the prefix, or to the whole expression when something follows |
| Evaluators.TableIsInline | sqlrouter/router.go:322-362 | the router's name of p${c % m} is the inline result of p_${c % m} |
| Evaluators.Verbatim | sqlrouter/router.go:259-263 | without "${" every evaluator returns the expression itself |
| Evaluators.ArrowIsVerbatim | config/config.yaml:51-55 | the p$->{...} spelling is the name, for every key |
| Evaluators.RoutedNameIsNode | sqlrouter/router.go:284 | a routed name is one of the numbered names exactly when the prefix is the pattern and the index is in range |
| Reach.ReachIff | sqlrouter/router.go:195-226 | source i and table j are reached by some key iff i and j agree modulo gcd(m, n) |
| Reach.ReachableCount | sqlrouter/router.go:195-226 | exactly lcm(m, n) pairs are reached |
| Reach.AllIffCoprime | sqlrouter/router.go:195-226 | all m*n nodes are reached iff m and n are coprime |
| Rewrite.RewriteIsTokenMap | sqlrouter/parser.go:263-274 | the backtick pass and the word pass together replace each maximal word equal to old by new and nothing else |
| Rewrite.TokensOfRewrite | sqlrouter/parser.go:263-274 | the tokens of the result are the mapped tokens |
| Rewrite.NoOldRemains | sqlrouter/parser.go:263-274 | no whole word old remains |
| Rewrite.SwapUndoes | sqlrouter/parser.go:263-274 | swapping the names undoes the rewrite exactly when new was not a word of the statement |
| Identifiers.IdentifierIs | sqlrouter/parser.go:198-257 | a table that is read stands in the first field of the text, or after a quoted name and a dot |
| Qualify.NameExtracted | sqlrouter/parser.go:70-257 | in a statement whose keyword is found, the exact name read from db.t in each of its four spellings, whatever text e is glued to it up to the next space: the table, or the table and the part of e that is not trimmed |
| Qualify.ReadsIff | sqlrouter/parser.go:75-80 | without an earlier one, the FROM of a SELECT is found exactly when a plain space stands on both sides of it |
| Qualify.SpellingsAgree | sqlrouter/parser.go:70-307 | in a SELECT, INSERT INTO, UPDATE or DELETE FROM with any white space in and around these keywords and any other text that lacks the table as a word: t is extracted exactly when the keyword is found (the first FROM between plain spaces is the one before the name; the others have one plain space where the code asks for it) and e is commas, or backticks and commas after an unquoted database, or anything after a doubly quoted name; then the statement is rewritten to the new name between backticks |
| Qualify.FourSpellings | sqlrouter/parser.go:70-307 | all four spellings extract to t and rewrite to one statement exactly when the keyword is found and e holds nothing but commas |
| Qualify.GluedExamples | sqlrouter/parser.go:202-257 | a column list or a semicolon after db.t becomes a part of the name, but not after the doubly quoted spelling |
| Qualify.KeywordExamples | sqlrouter/parser.go:70-106 | a line break, a tab or a second space hides the keyword, so that no table is found and nothing is rewritten; a subquery's table is taken for the statement's |
| Qualify.UnqualifiedRewrites | sqlrouter/parser.go:70-307 | an unqualified table is found exactly when its keyword is found and only backticks and commas are glued to the bare name, or no dot and second name follow the quoted one; it is then rewritten in place |
| Qualify.TableRewritten | sqlrouter/parser.go:276-307 | a statement whose table is found, however spelled, is rewritten to the same statement about any other table |
| Extract.Shrink | sqlrouter/parser.go:124-130 | the loop over keywords finds the least place of any of them |
| Extract.ExtractShardingCondition | sqlrouter/parser.go:111-156 | the loops that shrink endIdx and condEnd compute the specified condition |
| Extract.ColumnIff | sqlrouter/parser.go:134-138 | the column pattern matches exactly where a word begins with the column's name in any case and, after blanks, an operator follows |
| Extract.ConditionFound | sqlrouter/parser.go:133-155 | of a clause with a condition anywhere the condition is cut out exactly when it ends the clause or the AND or OR after it stands between plain spaces |
| Extract.ConditionRuns | sqlrouter/parser.go:143-155 | the condition that is found stops before what follows it when the joiner there is set off by plain spaces, and goes on past the joiner's word when it is not |
| Extract.ClauseFound | sqlrouter/parser.go:111-130 | the WHERE clause runs from the first WHERE to the first ORDER BY, GROUP BY, LIMIT or HAVING, be it the statement's or a part of a name or value |
| Extract.LiteralComesBack | sqlrouter/parser.go:164-194 | what the three branches return for a quoted or bare literal is its value exactly under a condition on its letters and edges |
| Extract.ExtractionInverts | sqlrouter/parser.go:111-194 | for column = literal anywhere in a clause, after any text that does not compare the column and before AND or OR between plain spaces or the end, the value comes back exactly when the literal alone does |
| Extract.InListValue | sqlrouter/parser.go:158-194 | of column IN (list) the rest of the list with its parenthesis goes to the three branches; unless it begins with IN or BETWEEN itself it is returned whole |
| Extract.InBranchCuts | sqlrouter/parser.go:169-179 | the branch for IN, entered by any remainder that begins with IN in any case, returns the first value, without these letters when they are upper-case |
| Extract.InListLosesLetters | sqlrouter/parser.go:169-179 | an IN list whose first value loses two letters |
| Extract.AtLeastValue | sqlrouter/parser.go:165-194 | of column >= v the value begins with the '=' that the pattern leaves over |
| Keywords.ExtractionIff | sqlrouter/parser.go:111-194 | for a quoted literal of any content, or a bare one without letters or spaces, in a clause with any keywords and any white space around the joiner: the value comes back exactly when it has no quote or space at either end, no joiner inside, the condition ends the clause or the joiner after it stands between plain spaces, and the first keyword of the clause, if any, comes after that joiner and not right after it |
| Keywords.KeywordNext | sqlrouter/parser.go:122-155 | a keyword right after the joiner, which may be the beginning of a name, leaves the joiner's word in the value |
| Keywords.NameTakenForKeyword | sqlrouter/parser.go:122-155 | id = 5 AND limits = 3 gives 5 AND |
| Keywords.LineBreakHidesAnd | sqlrouter/parser.go:143-155 | id = 5, a line break and AND a = 1 give 5, the line break and AND a = 1 |
| Routing.PrunedBySource | sqlrouter/router.go:365-438 | with a target source the list is the order-preserving sub-list of the broadcast, exactly when the source is one of the broadcast's |
| Routing.PrunedByTable | sqlrouter/router.go:365-438 | the same for a target table |
| Routing.PrunedByBoth | sqlrouter/router.go:413-419 | with both, one node, which is a broadcast node exactly when both names are |
| Routing.RoutedNodeExists | sqlrouter/router.go:240-362 | the routed node is a node of the rule exactly when both prefixes are the rule's patterns |
| Routing.ReachableNodes | sqlrouter/router.go:195-226 | over all int64 keys of one column exactly the nodes with i and j equal modulo gcd(m, n) are routed to |
| Routing.NoWhereBroadcasts | sqlrouter/router.go:167-237 | a statement without WHERE goes to every node |
| Routing.StatementRoutes | sqlrouter/router.go:167-237 | from the text: a statement that compares neither, either or both of the sharding columns with a key, each anywhere in the clause, goes to the expansion for exactly the targets of the keys it names |
| Routing.PointQuery | sqlrouter/router.go:167-237 | a point query on a column that shards both ways goes to the node of its key |
| Meaning.ExecuteRoute | sqlrouter/router.go:441-462 | no node: the default source; one node: its answer to the rewritten statement; several: an error with a node's message iff all fail, all rows of a SELECT, the summed count and a node's insert id of any other statement |
| Meaning.PruningKeepsMeaning | sqlrouter/router.go:167-237 | the pruned nodes, the broadcast and the logical table give the same rows |
| Meaning.RouteRows | sqlrouter/router.go:441-557 | what the route's nodes contribute together is the logical table filtered |
| Meaning.ShardedSelect | sqlrouter/router.go:441-557 | under every interleaving the answer's rows are the logical table's rows that satisfy the query |
| Meaning.SelectFromText | sqlrouter/router.go:167-557 | from the statement's text through routing, rewriting and every interleaving: if every data source answers the query on its own tables, the answer's rows are the logical table's rows that satisfy it, whichever sharding columns the text names and however it spells the table |
| Meaning.PointSelect | sqlrouter/router.go:167-237 | from the statement's text: one node, whose rows are all the rows of the logical table that satisfy the query |
| Meaning.SentinelMissesSource | sqlrouter/router.go:375-377 | with data source range [0,0] every node of a broadcast is the rule's pattern itself, which is none of the names numbered from it, where routed rows are |

## Left out

- Sockets, deadlines, logging, `server/`, `main.go`, YAML loading and the configuration globals: a connection is an input and an output byte sequence, and configuration is a parameter.
- `database/sql`, the driver and MySQL itself: a physical transaction is open once and the first Commit or Rollback ends it; a node's answer to a statement is any result or error.
- That a data source evaluates a statement about one of its tables: `Meaning.AnswersFor` is a hypothesis, as is the placement of rows (`Meaning.Placed`), because INSERT is broadcast and places nothing.
- The internals of SHA-1: any function with 20-byte results.
- The clock: any function from call numbers to readings; that it advances is a hypothesis of the overflow spin only.
- `GenerateKey`: a new generator per call, so uniqueness does not carry over from `Snowflake`.
- A `JoinTransaction` that races with other operations: it edits `DataSources` outside the lock; here each operation of the manager is one atomic step.
- Pointers to transaction contexts: contexts are values in the manager's map, so a context kept by a caller after it left the map, and `GetTransaction`, are not modelled.
- `generateTransactionID` and `randomString`: ids are assumed new.
- `ExecuteInTransaction`, pool statistics, pool sizes, `sanitizeDSN`, `BuildMySQLDSN`, `ResolveDataSourceName` and its helpers.
- `handlePrepare` and the prepared statement table; of `handleExecute` the reply is modelled.
- The greeting packet, ERR packets and the packets of SHOW, USE and information_schema handlers.
- Values that the text protocol prints by its default case: their text is a parameter (`toString`).
- SHOW, USE, information_schema and system-query handlers, sharding hints, `ParseSQLType` beyond SELECT or not, the lookup of a rule by the extracted table.
- Joins over shards, aggregates, ORDER BY and LIMIT over shards, OR, IN, BETWEEN and inequalities: the router concatenates, or treats the condition as one value, so they are outside the meaning theorem.
- `strings.ToUpper` and `(?i)` outside ASCII: `GoStrings.ToUpper` changes ASCII letters only, and strings are sequences of runes, so byte offsets of multi-byte text are not modelled.
- Replacement templates: a new table name with a `$` would be expanded by Go's regexp package; the replacement here is literal.
- The read-write splitting forms of `actualDataNodes` are parsed and expanded in the model, but only their disagreement between the expanders is proved; the group lookup behind them is a stub in the program.
- `writePacket` of 2^24 bytes or more is modelled as the code does it, without splitting; `Packets.FrameRoundTrip` says that such a packet does not read back.
- Extract.ExtractionInverts: asks that the column is not compared between the first WHERE and the condition, or inside its value; what a statement means whose first comparison is another one is in the model but not in a theorem.
- Keywords.ExtractionIff: bare literals with letters or spaces (NULL, TRUE, expressions) are left to `Extract.ExtractionInverts`, and the column is not called AND or OR.
- Qualify.SpellingsAgree: asks of a quoted database name that it is not empty and has no backtick, that it holds the table as a word only when it has no dot, and, for a statement whose keyword is not found, that it holds no FROM or JOIN between spaces; of an unquoted one that it is an identifier. Spaces around the dot, double quotes and a SELECT with JOIN but without FROM are in the model but not in a theorem.
- DataNodes.ParsePrint: names have no line break either, since `.` does not match one, and bounds fit in 63 bits, since larger ones are clamped.
- Meaning.ShardedSelect: every node answers; what a SELECT gives when some nodes fail and others answer is `Merge.ExecuteOnMultipleNodes`.
