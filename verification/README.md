# A model of the web server's config language, router and meme store

This project models the parts of the server whose behaviour is decided by its own logic, and proves what
they promise together.

* **Config language** (`ConfigLexer`, `ConfigGrammar`, `ConfigRemains`, `ConfigPrinter`, `ConfigTree`,
  `ConfigSettings`).
  The tokenizer is a loop over a stream with one character of push-back and is proved against a
  maximal-munch definition. The parser mutates a tree of heap objects through a stack of aliased pointers
  into it. Its loop invariant (`ParserAt`) says that the stack, the `{` counter, the kind of the last token
  and the heap describe one state of a value-level stack machine: the stack is one longer than the counter,
  its bottom is the caller's config, every entry is the child block of the last statement of the entry
  below, no object occurs twice, and the statements the caller already had stay a prefix. The stack machine
  accepts exactly the yields of the grammar `Block ::= Statement+`,
  `Statement ::= WORD+ (';' | '{' Block '}')`. Printing a tree at any depth and parsing the text gives the
  tree back if and only if the tree is printable, and every parsed tree is. What an accepted text hides is
  characterised for all texts: a word at its very end, and nothing else. What a rejected text leaves in the
  config is characterised too, since the server goes on with it (src/server_main.cc:43): the tree of the
  longest beginning of a well-formed block, with its last statement and its open blocks ended.
* **Router** (`RouterSpec`, `Router`, `RouterThreads`, `RouterLocks`, `RouterAnswers`). Registration,
  longest-prefix matching over an unordered map, the proxy fallback, the default headers and the status
  recorder are methods of objects; the results are about document order, down to the position of the deciding
  line, and about whole runs of calls. `RouterThreads` is a state machine over all
  interleavings of any number of threads on one route map, each making any sequence of calls of the router's
  public methods; which locks a call takes follows from the route map at that moment. `RouterLocks` gives the
  exact condition for deadlock in terms of what is called: for some prefix, one thread registers a declared
  location from the config without having registered the prefix before, and another one may look the prefix
  up and miss it. That is any prefix it asks the handler of, if neither the start nor it itself has
  registered it, and the empty prefix for a request of a URI of which neither has registered a prefix. So the
  server depends on `register_routes_from_config` being called at startup only, or on a start whose routes
  match every URI requested and contain every prefix asked for. `RouterAnswers` says what concurrent requests
  get, and that no response is lost or recorded twice. Within a registration the recorder runs one route ahead of the map,
  which a status page can see, as it does not take the route map lock; whenever that lock is free, the two
  agree.
* **Meme pipeline** (`UriCodec`, `FormBody`, `SqlText`, `SqlManager`, `MemeStore`, `StableSorting`, `Json`,
  `MemeListing`, `MemeHandler`). The percent codec, the form check with its regular expressions as scanning
  functions, the statement builders as text that is lexed, parsed and executed on an abstract table, and the
  handlers on top of them. The handler object carries the history of its requests, and its invariant says
  that the table is the one that history leads to; so what is proved about runs (field alphabet, unique
  identifiers, view counters, the listing a client can take apart again) holds of the table at any time.

Functions that the code and its contract both go through (character classes, the template pattern, the sort
key, handler names, digits, layouts, SQL and JSON texts) are each tied to literal characters and texts by
lemmas of their own, listed with their module.

`Numbers` holds the C++ library's integer conversions, including their treatment of white space, signs,
`0x` and ranges; `Sequences` regroups concatenations. Strings are sequences of characters; where bytes
matter, characters are below 256.

Where the code and what it says disagree, the model follows the code:

* A word that the input ends with is dropped: `a; b` is accepted as `a;` (`MissingSemicolon`). An accepted text
  hides a word if and only if it ends inside one; with a line end behind it, it is then rejected
  (`LineEndRevealsCutOffWord`).
* "Thread count must be greater than 0" only rejects zero, and resets an earlier valid count to the default: a
  negative count is converted to unsigned and becomes huge, so `threadCount -1;` asks for 4294967295 threads
  (`ThreadStatement`, `MinusOneThread`).
* The proxy branch of `get_route_handler` cannot be taken once the config has been registered
  (`FallbackNeverProxies`).
* The "has been corrupted" answer of `get_meme_by_id` cannot occur (`GetMemeById`), and updating or deleting
  an unknown meme answers 200 (`UpdateMeme`, `DeleteMeme`).

## Model

| member | source | states |
|---|---|---|
| ConfigLexer.ParseToken | src/config_parser.cc:67-148 | One call returns the token that the maximal-munch definition gives for what the stream still holds, and leaves the stream just behind it |
| ConfigLexer.Lex | src/config_parser.cc:70-147 | Every token but end of input and an error leaves strictly less text, and these two leave none, so reading tokens ends on every input |
| ConfigLexer.Advance | src/config_parser.cc:75-138 | One character keeps the token that reading on will produce, in every state; the quote that ends a quoted token is kept, a comment's line end is dropped, the character behind a bare word is pushed back |
| ConfigLexer.MachineIsLex | src/config_parser.cc:67-148 | For every text the state machine and the definition by longest spans agree on token and rest |
| ConfigLexer.WordShape | src/config_parser.cc:88-138 | Every word returned is a bare word (no space, tab, newline, `;`, brace inside; no quote or `#` first) or a properly quoted one |
| ConfigLexer.LexWord | src/config_parser.cc:105-137 | Every such word, followed by something that ends it, is returned as it is |
| ConfigLexer.SkipsWhite | src/config_parser.cc:99-103 | A space, tab, newline or carriage return between tokens is skipped, whatever follows |
| ConfigLexer.ReadsMarks | src/config_parser.cc:78-98 | `{`, `}` and `;` are tokens of their own, whatever follows |
| ConfigLexer.SkipsComment | src/config_parser.cc:124-129 | A comment is skipped from `#` up to and including the next newline or carriage return, or to the end of input |
| ConfigLexer.ReadsBareWord | src/config_parser.cc:130-137 | A bare word ends before a space, tab, newline, semicolon or brace, and not before a carriage return, a quote or `#`; at the end of input it is lost. With the other four this covers every text |
| ConfigLexer.ReadsQuoted | src/config_parser.cc:109-123 | A quoted word runs to the next quote of its kind and keeps both; without one the text is in error |
| ConfigGrammar.StepSound | src/config_parser.cc:170-215 | After every accepted token the open blocks derive exactly the tokens read so far |
| ConfigGrammar.RunBlock | src/config_parser.cc:157-231 | Reading the yield of a well-formed block at any nesting appends exactly that block to the innermost level |
| ConfigGrammar.ParserDecidesGrammar | src/config_parser.cc:150-238 | A token stream is accepted with tree `b` if and only if it reaches end of input and is the yield of the well-formed tree `b` |
| ConfigGrammar.DerivationIsUnique | src/config_parser.cc:150-238 | Two well-formed trees with the same tokens are equal |
| ConfigPrinter.ParseTextDecidesGrammar | src/config_parser.cc:67-238 | The same for texts: accepted with `b` if and only if the comment-free tokens up to end of input derive `b` |
| ConfigPrinter.ParsedIsPrintable | src/config_parser.cc:173-215 | The tree of any accepted text has no empty block or statement and only lexable words |
| ConfigPrinter.PrintParseRoundTrip | src/config_parser.cc:20-51 | At every depth, the printed text of a tree parses to that tree if and only if the tree is printable |
| ConfigPrinter.NormalizationIsStable | src/config_parser.cc:20-51 | For every accepted text, parsing the printed tree gives the same tree |
| ConfigPrinter.IndentIsSpaces | src/config_parser.cc:30-32 | The indentation is two spaces per level, and none below level 0 |
| ConfigPrinter.Layout | src/config_parser.cc:28-51 | Two nested blocks around a statement, for all words, written out with their spaces, braces and line ends |
| ConfigPrinter.LineEndCompletes | src/config_parser.cc:139-147 | For every text that lexes to the end of input, a line end behind it adds the word that the end of input cut off, if there is one, and changes no other token |
| ConfigPrinter.LineEndRevealsCutOffWord | src/config_parser.cc:139-147 | An accepted text hides a word if and only if it ends inside one: with a line end behind it, it is then rejected, and every other accepted text keeps its tree |
| ConfigPrinter.CutOffWordIsDropped | src/config_parser.cc:141-147 | A bare word behind any printed text is hidden in this way: the text is accepted as the same tree |
| ConfigPrinter.MissingSemicolon | src/config_parser.cc:141-147 | `a; b` is accepted as `a;` |
| ConfigTree.Parse | src/config_parser.cc:150-238 | Succeeds exactly on the texts of the grammar; in any case the config holds its old statements followed by a tree of new, pairwise distinct objects, whose value is the derivation of an accepted text, and of any text what `RemainsIsLongestBeginning` says |
| ConfigTree.ParseLoop | src/config_parser.cc:157-232 | However the loop ends, stack and heap are in the state in which the stack machine stops; only the caller's config and new objects are touched, and the bottom of the stack stays the caller's config with its earlier statements |
| ConfigTree.TreeBelowRoot | src/config_parser.cc:150-215 | In every state of the loop, the heap below the caller's config is a tree of distinct objects, and its value is that of the machine's state with the open blocks closed around what they have |
| ConfigRemains.AcceptedTree | src/config_parser.cc:216-226 | The block of an accepted run is the tree of the state in which the machine stops |
| ConfigRemains.TreeHasWords | src/config_parser.cc:179-184 | In every reachable state, no statement at any depth of the tree is without a word |
| ConfigRemains.StopsAtLongestBeginning | src/config_parser.cc:157-232 | The same for token streams: the parser stops behind the longest beginning of a well-formed block |
| ConfigRemains.YieldDetermines | src/config_parser.cc:150-215 | Two trees whose statements have words derive the same tokens if and only if they are equal |
| ConfigPrinter.RemainsHaveWords | src/config_parser.cc:150-238 | Every text, accepted or not, leaves a tree whose statements all have a word, and an accepted one its derivation |
| ConfigPrinter.RemainsIsLongestBeginning | src/config_parser.cc:150-238 | For every text there is a number of tokens, the largest for which the tokens up to there begin a well-formed block, such that what is left derives exactly these tokens, then a `;` if the last one is a word, then one `}` for every `{` without its `}`; no other tree whose statements have words derives that |
| ConfigPrinter.UnfinishedStatementStays | src/config_parser.cc:179-184 | Behind any printed text, a last statement without its semicolon stays in the config, although the text is rejected |
| ConfigPrinter.UnfinishedPort | src/config_parser.cc:179-184 | `root .;` and `port 80` without a semicolon leave both statements |
| ConfigTree.Consume | src/config_parser.cc:173-215 | One token fails exactly where the stack machine does, and otherwise takes heap, stack and counter to the machine's next state, keeping the shape invariant |
| ConfigTree.PushWord | src/config_parser.cc:179-184 | A word extends the last statement of the top block, or starts a new statement there, and changes nothing else of the tree |
| ConfigTree.PushBlock | src/config_parser.cc:199-203 | A new block becomes the child of the waiting statement and the new top |
| ConfigTree.PopBlock | src/config_parser.cc:210-215 | Leaving a block makes the waiting statement, with that block, a finished one of the block below |
| ConfigTree.NginxConfig.ToString | src/config_parser.cc:20-26 | Walking the heap tree gives the printed text of the tree it stands for |
| ConfigTree.NginxConfigStatement.ToString | src/config_parser.cc:28-51 | The same for one statement, with its indentation, words, and child block or semicolon |
| ConfigTree.NginxConfig.ParseStatements | src/config_parser.cc:254-328 | Port, root and thread count are those of the fold over all tokens, which the statements below determine; true if and only if a port was found; otherwise the port field keeps its value |
| ConfigTree.NginxConfig.ParseTokens | src/config_parser.cc:266-318 | The same for the tokens of one statement, where a value that cannot be used leaves the keyword in force |
| ConfigSettings.SettingsExplained | src/config_parser.cc:254-328 | The port is the first usable value tried, and no port is tried after it; the root is the last one set; the thread count is decided by the last convertible value |
| ConfigSettings.SettingsInRange | src/config_parser.cc:276-281 | A port is in 1..65535 and the thread count is positive, for every config |
| ConfigSettings.PortStatement | src/config_parser.cc:274-291 | `port` stays in force over values that are no number in 1..65535, and the first one that is decides the port, whatever other tokens stand before the keyword; nothing else changes |
| ConfigSettings.FirstPortStays | src/config_parser.cc:274-280 | Once there is a port, no later statement changes it |
| ConfigSettings.RootStatement | src/config_parser.cc:292-298 | `root path;`, with any tokens before it, replaces the root by the path, by the empty one if the path is `.`, and changes nothing else |
| ConfigSettings.ThreadStatement | src/config_parser.cc:299-315 | `threadCount` stays in force over values that cannot be converted, which change nothing, and over zeros, which reset the count to 10; a positive value replaces the count, and a negative one n makes it 2^32 + n |
| ConfigSettings.MinusOneThread | src/config_parser.cc:299-315 | `threadCount -1;` asks for 4294967295 threads |
| ConfigSettings.ValueAndKeyword | src/config_parser.cc:269-317 | The value `port` of `root port 80` is the root, and the keyword for what follows |
| ConfigSettings.KeywordBehindValue | src/config_parser.cc:269-317 | A keyword can follow a used value in the same statement |
| ConfigSettings.LocalPort | conf/local_port:1-3 | The shipped configuration asks for port 8080, the empty root and 50 threads |
| Numbers.StoiReads | src/config_parser.cc:276-276 | std::stoi reads white space, a sign and the digits, ignores what follows, and fails if the number is no int |
| Numbers.StoiFails | src/config_parser.cc:287-290 | It fails if there is no digit there |
| RouterSpec.FirstDeclarationWins | src/router.cc:28-42 | Registration keeps every existing route; of several declarations of a new prefix the first one counts; nothing else is added |
| RouterSpec.MatchIsUnique | src/router.cc:179-200 | What the matching loop promises for any order of the map has exactly one answer, that of trying ever shorter prefixes of the URI |
| RouterSpec.FallbackNeverProxies | src/router.cc:117-123 | After registration from the config, every lookup that misses falls back to `default`, never to `proxy` |
| RouterSpec.RoutingIsLongestFirst | src/router.cc:45-124 | The handler of a URI is that of the first declaration, in document order, of the longest declared location that prefixes it, or `default` if there is none |
| RouterSpec.RoutingByPosition | src/router.cc:45-124 | The same by positions in the document: of the `location` lines that declare a prefix of the URI, one with the longest prefix decides, and of those the first; its block names the handler; without one it is `default` |
| RouterSpec.HandlerConfigIsLast | src/router.cc:143-164 | A handler gets the block of the last `handler` statement of its name that has one, and nothing exactly if there is none |
| RouterSpec.ProxyFallback | src/router.cc:112-123 | A miss falls back to `proxy` if and only if the last proxy block declares that very URI, and else to `default` |
| RouterSpec.RouterBlockIsLast | src/server.cc:88-101 | The router gets the block of the last top-level `router` statement that has one |
| RouterSpec.LeftRouterConfig | src/server.cc:86-110 | The router block of whatever a text, accepted or not, leaves in the config meets what the router's unguarded accesses need if and only if every location has an argument |
| Router.Router.RegisterRoute | src/router.cc:28-42 | Adds the route and records it if and only if its prefix is new; recorder and map still agree |
| Router.Router.RegisterRoutesFromConfig | src/router.cc:45-71 | Registers exactly the declared routes, in document order |
| Router.Router.RegisterDefaultHeader | src/router.cc:75-91 | Sets one header, and changes nothing else |
| Router.Router.LongestPrefixMatch | src/router.cc:179-200 | For every order in which the map is visited, the result is the longest registered prefix of the URI, or empty |
| Router.Router.GetHandlerConfig | src/router.cc:143-164 | The block of the last handler of that name |
| Router.Router.GetRouteHandler | src/router.cc:110-124 | The registered handler, else the fallback |
| Router.Router.IsValidProxy | src/router.cc:273-283 | Whether the block declares exactly that location |
| Router.Router.SelectHandler | src/router.cc:204-271 | The kind of handler made for a URI, and the config block it gets |
| Router.HandlerNames | src/router.cc:209-270 | The nine names with a handler of their own kind, and the default handler for exactly all others |
| Router.Router.ApplyDefaultHeaders | src/router.cc:167-176 | Default headers override a response's own, in whatever order they are visited |
| Router.Router.HandlerName | src/router.cc:103-103 | The registered handler of the longest registered prefix, else the fallback |
| Router.Router.RouteRequest | src/router.cc:95-107 | The chosen handler serves the request; one log entry is added if and only if it returned; nothing else changes |
| Router.RecorderAgrees | src/server_status_recorder.cc:10-22 | After every run of whole calls the recorded prefixes are distinct and, as a relation, equal to the route map |
| RouterThreads.RecorderIsAtMostOneAhead | src/router.cc:28-42 | In every interleaving the recorder agrees with the route map whenever nobody holds its lock, and otherwise with the map or with the map and one new route that the holder is about to insert |
| Router.RoutesAreStable | src/router.cc:32-39 | A registered route keeps its handler over every run |
| Router.MissesGoToDefault | src/router.cc:110-124 | After startup, whatever is registered and requested later, a lookup that misses goes to the default handler |
| Router.LogIsAnsweredRequests | src/router.cc:100-100 | Over every run the URL list grows by exactly one entry per request whose handler returned, in order |
| RouterThreads.MutualExclusion | src/router.cc:30-30 | In every reachable state no lock has two holders |
| RouterThreads.DisciplineOfCall | src/router.cc:28-204 | Every instruction of every call is met with its locks only, whatever the route map is like then, and no call ends with a lock |
| RouterThreads.StepKeepsLocal | src/router.cc:95-124 | What a thread knows stays true at each of its steps: what it registered is in the map, a lookup goes on with a registered prefix or with none of what the thread knows, a new route is still new |
| RouterThreads.StepKeepsInv | src/router.cc:28-204 | Every step of every thread keeps the invariant of the whole system |
| RouterLocks.DeadlockNeedsClash | src/router.cc:45-124 | In every reachable deadlock some thread registers from the config and another one has looked up a prefix and missed it, by a request or by asking for its handler, each as the condition says |
| RouterLocks.MutualWaitDeadlocks | src/router.cc:112-121 | Two threads that wait for each other lead to a deadlock, whatever the others do |
| RouterLocks.ClashDeadlocks | src/router.cc:45-124 | Wherever the condition holds there is an interleaving into a deadlock |
| RouterLocks.DeadlockCondition | src/router.cc:45-124 | Threads making any calls of the public methods on any route map can deadlock if and only if, for some prefix, one registers a declared location from the config without having registered the prefix, and another one may miss it: the empty prefix by requesting a URI of which neither the start nor itself has registered a prefix, or any prefix that neither has registered by asking for its handler |
| RouterLocks.AskingCanDeadlock | src/router.cc:110-124 | Asking for the handler of a prefix that the start does not have can deadlock with a registration from the config, whatever else the start has |
| RouterLocks.ServingNeverDeadlocks | src/server.cc:105-107 | Without registration from the config, no mix of requests, lookups, registrations and header accesses deadlocks |
| RouterLocks.CatchAllNeverDeadlocks | src/router.cc:110-200 | If the routes of the start match every URI requested and contain every prefix whose handler is asked for, registration from the config does not deadlock either |
| RouterAnswers.RoutesStay | src/router.cc:32-39 | A route keeps its handler through every continuation of every interleaving |
| RouterAnswers.LookupAnswers | src/router.cc:204-207 | In every interleaving a lookup results in the handler that its URI had when it was matched; only if nothing matched, in the handler that the empty prefix has when it is looked up, or the fallback |
| RouterAnswers.ResponsesAreConserved | src/router.cc:100-100 | In every interleaving, the responses recorded and those still to be recorded are together those of the start and of all requests whose handler returns |
| RouterAnswers.FinalResponses | src/server_status_recorder.cc:10-16 | When all threads are done, the response list holds what it held at the start and exactly one entry per request whose handler returned |
| UriCodec.UriEncode | src/uri_lib.cc:39-65 | The loop computes the encoding of every byte string, character by character |
| UriCodec.UriDecode | src/uri_lib.cc:68-91 | The loop, whose index also moves inside its body, computes the decoding, or fails exactly where a code is malformed |
| UriCodec.EncodedByte | src/uri_lib.cc:7-58 | Letters, digits, `-`, `_` and `~` stand for themselves, and every other byte becomes `%` and two lower-case hexadecimal digits |
| UriCodec.CodeOfTwo | src/uri_lib.cc:20-36 | The value of any two characters behind a `%`: two digits are a byte, one digit counts before another character or behind white space or a sign, all else fails |
| UriCodec.ShortCodes | src/uri_lib.cc:24-36 | At the end of the text, one digit behind a `%` counts, any other character fails, and none is the byte 0 |
| UriCodec.DecodesBy | src/uri_lib.cc:80-87 | `+` decodes to a space, and every character but `%` and `+` to itself, whatever follows |
| UriCodec.DecodesCode | src/uri_lib.cc:74-79 | `%` takes the two characters behind it, whatever follows |
| UriCodec.DecodesShortCode | src/uri_lib.cc:76-78 | At the end of the text it takes the one that is there, or none |
| UriCodec.HexRoundTrip | src/uri_lib.cc:7-36 | The two digits of every byte are read back as that byte |
| UriCodec.CodecRoundTrip | src/uri_lib.cc:39-91 | Decoding undoes encoding, for every byte string |
| UriCodec.EncodeIsInjective | src/uri_lib.cc:39-65 | Two byte strings have the same encoding if and only if they are equal |
| UriCodec.EncodeOfConcat | src/uri_lib.cc:43-62 | Encoding distributes over concatenation |
| UriCodec.DecodeEncodedPrefix | src/uri_lib.cc:72-88 | An encoded prefix decodes to itself, whatever follows, and fails exactly if what follows fails |
| UriCodec.DecodeCodePrefix | src/uri_lib.cc:72-88 | The same for every encoding in which each byte stands for itself, for `+`, or for a two-digit code in either case |
| UriCodec.EncodeEncodes | src/uri_lib.cc:39-65 | UriEncode writes such an encoding |
| UriCodec.ClientEncodes | web/memes/create.js:40-43 | So does the form encoding of the client, with upper-case codes and `+` for spaces |
| UriCodec.ClientByte | web/memes/create.js:40-43 | Byte by byte: letters, digits and nine marks, `+` for a space, and else two upper-case digits |
| UriCodec.EncodedLength | src/uri_lib.cc:43-62 | An encoding has between the length and three times the length of the text |
| UriCodec.DecodedLength | src/uri_lib.cc:72-88 | A text that decodes has between the length and three times the length of the result |
| FormBody.PairAtMatches | src/meme_handler.cc:417-417 | What the scanning function returns is a match of the pair pattern with exactly that key and value |
| FormBody.PairAtIsGreedy | src/meme_handler.cc:417-417 | It finds a match whenever the pattern has one; no match has another key, a longer value, or then more `&` |
| FormBody.FindPairIsLeftmost | src/meme_handler.cc:418-430 | The search returns the match that starts furthest left, and none only if there is none |
| FormBody.CollectAll | src/meme_handler.cc:421-431 | The loop over all matches leaves the last value of each of the three keys |
| FormBody.LastValueIsLast | src/meme_handler.cc:426-428 | The value kept for a key is that of the last pair with this key, and empty exactly if there is none |
| FormBody.TemplatePattern | src/meme_handler.cc:434-437 | The template check holds if and only if somewhere there is a word character or more, then any character but a line end, then `jpg` |
| FormBody.ValueCharacters | src/meme_handler.cc:417-417 | A value is a non-empty text of letters, digits and `_.,?! ` |
| FormBody.CheckOutcome | src/meme_handler.cc:409-455 | Exception exactly if the body does not decode; else the last values of the three keys `memeSelect`, `topCaption` and `bottomCaption`, if the first passes the template check and the others are not empty |
| FormBody.BodyCheck | src/meme_handler.cc:409-455 | The check's outcome: thrown, rejected, or the three values |
| FormBody.AcceptedIsValid | src/meme_handler.cc:432-454 | Whatever the body, accepted values are non-empty, of the caption alphabet, and the template contains a match of its pattern |
| FormBody.FormRoundTrip | src/meme_handler.cc:409-455 | A form of any three byte strings of any length, each in any such encoding, is checked to exactly these if and only if they are valid |
| FormBody.JpgFormIsChecked | src/meme_handler.cc:409-455 | For every word and all captions of those characters, the form with template `word.jpg`, written out plainly or in any encoding, is checked to exactly these three values |
| FormBody.FormsAreForms | web/memes/create.js:40-43 | The forms written with UriEncode and those that the client sends are such forms |
| SqlManager.InsertTextParses | src/sql_lib.cc:63-78 | The insert text parses to the given columns with parameters 1 to n |
| SqlManager.UpdateTextParses | src/sql_lib.cc:101-118 | The update text parses to assignments with parameters 1 to n and conditions with parameters n + 1 to n + m |
| SqlManager.InsertWritten | src/sql_lib.cc:65-78 | The insert of two columns, written out |
| SqlManager.UpdateWritten | src/sql_lib.cc:103-118 | The update of a column under a condition, written out |
| SqlManager.WheresWritten | src/sql_lib.cc:149-160 | A delete under two conditions and selects under one and none, written out |
| SqlManager.CStringCut | src/sql_lib.cc:84-88 | A bound text is cut at its first NUL, and only there |
| SqlManager.BindAll | src/sql_lib.cc:124-134 | The binding loop, with its running parameter number, binds every parameter from its first number on to its own value, and keeps the earlier ones |
| SqlManager.AppendConditions | src/sql_lib.cc:104-118 | The loop over assignments or conditions, with its running parameter number, writes the keyword once, the items with consecutive numbers and separators between them, and the end behind the last |
| SqlManager.AppendPlaces | src/sql_lib.cc:72-78 | The loop over values writes the parameters 1 to n |
| SqlManager.BuildUpdate | src/sql_lib.cc:101-134 | Text and bindings of an update, counted by two separate runs through the parameters, agree |
| SqlManager.InsertMeans | src/sql_lib.cc:63-98 | Running the insert text under its bindings is the relational insert of the values given; without columns or without a table of that name it fails |
| SqlManager.UpdateMeans | src/sql_lib.cc:101-144 | Running the update text under its bindings is the relational update: every assignment and condition gets its own value; without assignments or without a table of that name it fails |
| SqlManager.DeleteMeans | src/sql_lib.cc:147-178 | Running the delete text is the relational delete |
| SqlManager.SelectMeans | src/sql_lib.cc:181-228 | Running the select text is the relational selection |
| SqlManager.EmptyInsertFails | src/sql_lib.cc:65-82 | Without columns the insert text is no statement, and nothing happens |
| SqlManager.EmptyUpdateFails | src/sql_lib.cc:103-121 | Without assignments the update text is no statement, and nothing happens |
| SqlManager.OutcomesAreValid | src/sql_lib.cc:63-228 | Every operation leaves full rows with distinct keys, and a selection leaves the table alone |
| SqlManager.SqlDatabase.InsertRecord | src/sql_lib.cc:63-98 | The table after the call and the result are those of the relational insert; a duplicate key fails and changes nothing |
| SqlManager.SqlDatabase.UpdateRecord | src/sql_lib.cc:101-144 | The same for the relational update |
| SqlManager.SqlDatabase.DeleteRecord | src/sql_lib.cc:147-178 | The same for the relational delete |
| SqlManager.SqlDatabase.SelectRecord | src/sql_lib.cc:181-228 | Returns the rows of the relational selection, in table order, and changes nothing |
| MemeStore.ApplyKeepsStoreOk | src/meme_handler.cc:417-472 | Every request keeps the store in order: identifiers of the right shape and unique, valid fields, counters that are decimal numbers |
| MemeStore.ApplyIsLocal | src/meme_handler.cc:141-182 | A request has its effect on the row of its own identifier and on no other one; an update keeps the counter |
| MemeStore.CreateApplied | src/meme_handler.cc:458-472 | A create appends identifier, template, captions and a zero counter exactly if the form is accepted and the identifier is new |
| MemeStore.UpdateApplied | src/meme_handler.cc:138-147 | An update replaces template and captions of the row with that identifier exactly if form and identifier are accepted, and leaves all other fields and rows where they are |
| MemeStore.RemoveApplied | src/meme_handler.cc:177-182 | A delete takes out the row with that identifier, and leaves the others in their order |
| MemeStore.ViewApplied | src/meme_handler.cc:307-318 | A view adds one to the counter of the row with that identifier, and leaves all else as it is |
| MemeStore.IdHasGroups | src/meme_handler.cc:371-378 | An identifier is accepted if and only if it is five groups of 8, 4, 4, 4 and 12 hexadecimal digits of either case, joined by hyphens |
| MemeStore.CreatedMemeHolds | src/meme_handler.cc:458-472 | After every run in which a form is accepted under a new identifier, and which afterwards does not update or delete that meme, the row found under it has the form's template, top and bottom caption |
| MemeStore.UpdatedMemeHolds | src/meme_handler.cc:138-147 | The same after an update of a meme that exists |
| MemeStore.CounterCountsViews | src/meme_handler.cc:307-318 | After every run the stored counter of a meme is the number of its successful views since it was created |
| MemeStore.ShortRunsAreDefined | src/meme_handler.cc:313-315 | No counter leaves the range of an int in any run of at most that many requests |
| StableSorting.StableSortSorts | src/meme_handler.cc:240-240 | The sort is ascending and keeps the order of equal keys |
| StableSorting.StableSortIsUnique | src/meme_handler.cc:240-240 | These two properties determine the result, so any stable sort gives it |
| StableSorting.TiesReversed | src/meme_handler.cc:240-252 | Of two elements with the same key, the one read first backwards stands later in the input |
| MemeListing.ListingOrder | src/meme_handler.cc:239-254 | The listing is a permutation of the table in which the number in the last field does not increase; of two rows with the same number, the one listed first stands later in the table |
| MemeListing.FieldsArePlain | src/meme_handler.cc:417-428 | No field of a stored row contains a colon, a quote, a backslash or a control character |
| MemeListing.BuildList | src/meme_handler.cc:239-255 | The loop writes the JSON array of the entries of the sorted rows, read backwards |
| Json.ArrayRoundTrip | src/meme_handler.cc:241-255 | The text of any list of strings that need no escape is a JSON array that reads back as that list |
| Json.ArrayOfTwo | src/meme_handler.cc:241-255 | The array of two strings and the empty one, written out |
| Json.ObjectRoundTrip | src/meme_handler.cc:335-338 | The text of any list of such members is a JSON object that reads back as that list |
| Json.ObjectOfTwo | src/meme_handler.cc:335-338 | The object of two members, written out |
| MemeListing.ListTextRoundTrip | web/memes/list.js:80-80 | Reading the array and splitting its strings at colons gives back exactly the rows listed |
| MemeListing.EntriesRead | src/meme_handler.cc:251-252 | The array reads as one string per row, identifier, views, image, top and bottom caption joined by colons, and splitting gives these five in that order |
| MemeListing.SplitIsJoined | web/memes/list.js:80-80 | Splitting gives the parts without colons that joined by colons are the text |
| MemeListing.ReachableListingRoundTrip | src/meme_handler.cc:236-261 | After every run, the client gets the whole table; every counter in it is the number of successful views of that meme, these numbers do not increase, and ties stand in the reverse of table order |
| MemeListing.SubmittedFormIsListed | src/meme_handler.cc:88-120 | After every run, a valid form in any encoding, submitted under an unused identifier, comes back in the client's rows with exactly its three values and no views |
| MemeHandler.InsertIsAdd | src/meme_handler.cc:458-472 | The insert issued for valid parameters adds the new row, or fails exactly if the identifier is taken |
| MemeHandler.UpdateIsEdit | src/meme_handler.cc:141-147 | The update issued changes the three captions of the row with that identifier, and succeeds also if there is none |
| MemeHandler.DeleteIsRemove | src/meme_handler.cc:180-182 | The delete issued removes exactly the row with that identifier |
| MemeHandler.SelectIsFind | src/meme_handler.cc:304-307 | The select issued returns the row found under the identifier up to its first NUL, or nothing |
| MemeHandler.UpdateIsView | src/meme_handler.cc:313-318 | The update issued increments the counter of the selected row, and changes nothing else |
| MemeHandler.MemeHandler.CreateMeme | src/meme_handler.cc:88-120 | Exception, 400, 500 or 201 with the identifier, exactly by outcome of the check and freshness of the identifier; the table is that of the history with this request |
| MemeHandler.MemeHandler.UpdateMeme | src/meme_handler.cc:123-163 | Exception, 400 or 200 exactly by body and identifier, 200 also for unknown memes; the table is that of the history with this request |
| MemeHandler.MemeHandler.DeleteMeme | src/meme_handler.cc:166-198 | 200 exactly for identifiers of the right shape, else 400; the table is that of the history with this request |
| MemeHandler.MemeHandler.GetMemeById | src/meme_handler.cc:296-344 | 404 exactly if there is no such meme, else 200 with an object from which the client reads the stored template as `memeSelect`, the top caption as `topCaption` and the bottom caption as `bottomCaption`; by `CreatedMemeHolds` and `UpdatedMemeHolds` these are the values of its last accepted form; the view is counted |
| MemeHandler.MemeHandler.MemeList | src/meme_handler.cc:236-261 | 200 with a text from which the client gets back the whole table, by numbers of successful views that do not increase, and ties in the reverse of table order; nothing changes |

## Left out

- Sockets, sessions, asynchronous callbacks and the server beyond creating the router: they pass bytes between the network and the router.
- The reverse proxy, the static file, echo, health and default handlers and MIME types: they read files or other servers, or answer with a constant; no state of the router or of the meme table depends on them.
- The web pages, except for the form encoding and the splitting of list entries, which are the other ends of the body check and of the listing. `form.serialize()` itself is the form library's; it is taken to be encodeURIComponent with `+` for spaces.
- Request parsing and the dispatch of URIs to meme requests (`check_uri`): the meme methods take body and identifier as parameters, so they are covered for whatever the dispatch passes on.
- Response headers of the meme handlers: they depend on nothing but the kind of answer.
- SQLite itself: the table is a sequence of rows with a primary key, and of SQL only what the builders write is lexed, parsed and executed. Column and table names are plain (no quoting needed, none of the keywords the builders write; other reserved words, and names that differ in case only, are taken as ordinary distinct names). An insert that names a column twice counts as failed. Creating and dropping tables and the `LIKE` search are not modelled.
- Identifier randomness: `CreateMeme` takes the drawn identifier as a parameter of the right shape.
- Concurrent requests for one meme: reading and writing back the counter is not atomic in the source, so view counts are proved for sequential runs.
- Counters at the largest int: incrementing one is undefined in the source, so `GetMemeById` and `Enabled` require it to be below; `ShortRunsAreDefined` says when that is sure.
- A `location` without an argument: the source indexes the missing token, so it is a precondition (`AllLocationsHaveArgument`).
- The text that accompanies an end-of-input or error token: the source leaves a fragment that no caller uses.
- ParseToken: the parameter `value` is assumed empty on entry, as its only caller passes it.
- Router.Router.RegisterRoutesFromConfig: the router reads its config as a value, since it never changes it; sharing of the tree with other owners is not modelled.
- Router.Router.RouteRequest: the recorder is a process-wide singleton; one router is assumed, created while the recorder's prefix list is empty.
- RouterLocks.DeadlockCondition: what the handler of a request answers, or that it throws, is a parameter of the call, on which the condition does not depend; an exception while the log line is written, which would leave that lock held, is not modelled.
- Locks inside handlers: each request makes its own handler object, whose config lock no other thread can reach; the lock model leaves them out.
- Logging and the unused counter of the matching loop.
- Regular expressions are scanning functions, proved to give the leftmost greedy match of the pair pattern; the three other patterns are their matching conditions. `std::stable_sort` is an insertion sort, proved to be the only stable sort.
- The JSON readers handle strings without escape sequences, which is all that the handlers write.
