# Brigand, modelled in Dafny

Brigand is an IRC bot written in C#. This project models its core and proves properties of the model:

- **Chatter.** An order-2 Markov chatter engine.
  - The parser turns text into symbols: words, punctuation marks, URLs and a terminator. The formatter turns symbols back into text.
  - A symbol dictionary hands out 16-bit ids.
  - Two tries of ids learn every window of three tokens: a forward trie and a backward trie.
  - A reply is seeded from the input, grown backward and then forward by random draws, and ends with the terminator.
  - The symbol table and both tries save to and load from one binary stream.
- **IRC.** The message codec (`IrcMessage.Parse` and `ToString`, section 2.3.1 of RFC 1459) and the prefix and target codecs (`IrcPrefix`, `IrcTarget`).
- **IRC client.** The client's `Say` line splitting, `Mode` and the PING, NICK and MODE handling.
- **Line breaking.** The RSS line breaker `WordBreak`.
- **Commands.** The command-argument tokenizer (`StringTokenizer`) and the `Aliases` module that uses it.
- **Security.** The `Security` module: users, masks and permissions.
- **Configuration.** The configuration converter for sets of strings.
- **Trivia.** The trivia game: requests, questions, hints, the answer reveal, scoring and the game's finale.

Each source component is one module:

| module | file | source |
|---|---|---|
| `Symbols` | `symbols.dfy` | Brigand/Chatter/Symbols.cs |
| `BinaryFormat` | `binary_format.dfy` | BinaryWriter/BinaryReader |
| `StringParser` | `string_parser.dfy` | Brigand/Chatter/StringParser.cs |
| `SymbolTable` | `symbol_table.dfy` | Brigand/Chatter/SymbolDictionary.cs and Chatter/SymbolDictionary.cs |
| `Trie` | `trie.dfy` | Chatter/Node.cs and the tries of Brigand/Chatter/Model.cs |
| `ChatterModel` | `model.dfy` | Brigand/Chatter/Model.cs and Chatter/Model.cs |
| `IrcPeers` | `irc_peers.dfy` | Brigand/Net/IrcPeers.cs |
| `IrcMessages` | `irc_message.dfy` | Brigand/Net/IrcMessage.cs |
| `IrcClient` | `irc.dfy` | Brigand/Modules/Irc.cs |
| `WordBreaking` | `word_break.dfy` | Brigand/Rss/StringExtensions.cs |
| `StringTokenizer` | `string_tokenizer.dfy` | Brigand/Utility/StringTokenizer.cs |
| `Aliases` | `aliases.dfy` | Brigand/Modules/Aliases.cs |
| `Security` | `security.dfy` | Brigand/Modules/Security.cs |
| `HashSetConverter` | `hashset_converter.dfy` | Brigand/Config/HashSetConverter.cs |
| `TriviaReveal` | `trivia_reveal.dfy` | `CanReveal` and `GetAnswerReveal` of Trivia/Trivia.cs |
| `TriviaGame` | `trivia.dfy` | the rest of Trivia/Trivia.cs |

Three modules hold shared definitions:

- `Wrappers`: Option, Result and the exceptions.
- `Chars`: ASCII character classes and case mapping.
- `Strings`: IndexOf, Split, Join and Trim.

**Code as written.** Where the code throws, the model returns a failure naming the .NET exception. Three examples:

- `IrcPrefix.Parse` of a prefix with a '!' only after the '@'.
- `Convert.ToInt32` of a non-octal escape.
- The missing request timer when the trivia threshold is 1.

**Model form.**

- **Loops.** Loops of the source are methods with loop invariants. Each is proved equal to a function that states what the loop computes. Lemmas about those functions carry the properties: round trips, invariants, what is added and what is kept.
- **Classes.** Objects whose fields the source updates are classes with `modifies` clauses:
  - `SymbolDictionary`;
  - `Model`;
  - `Irc`, with its outgoing queue;
  - `Security`, as `Registry`;
  - `Trivia`, with everything it says as a sequence of announcements.

## Model

| member | source | states |
|---|---|---|
| Symbols.PunctuationOf | Brigand/Chatter/Symbols.cs:87-95 | a character becomes a Punctuation symbol whose kind indexes ".,;:!?" exactly when the character is one of those marks, and then names that mark |
| Symbols.ToString | Brigand/Chatter/Symbols.cs:106-109 | a mark's text is its one character (an out-of-range kind fails as the indexer would); a word's and a URL's text is the payload itself |
| Symbols.Save | Brigand/Chatter/Symbols.cs:16-37 | the first byte is the variant's tag (0 punctuation, 1 word, 2 terminate, 3 URL); a Terminate is its tag alone, a mark is its tag and its kind byte |
| Symbols.Load | Brigand/Chatter/Symbols.cs:39-61 | a tag byte above 3 fails with InvalidOperation, an empty stream with EndOfStream, and a success consumes at least one byte |
| Symbols.SaveLoad | Brigand/Chatter/Symbols.cs:16-61 | loading what Save wrote, followed by any further bytes, gives back the same symbol and exactly the further bytes, for all four variants |
| Symbols.TerminatingMarks | Brigand/Chatter/Symbols.cs:97-104 | IsTerminating holds for a mark's symbol exactly when the mark is '.', '!' or '?' |
| Symbols.PunctuationToString | Brigand/Chatter/Symbols.cs:87-109 | for every mark, ToString of the symbol made from it is that mark |
| Symbols.EqualsIsStructural | Brigand/Chatter/Symbols.cs:116-198 | the four Equals overrides hold exactly for the same variant with the same payload, and any two terminators are equal |
| Symbols.WordAndPunctuationDisjoint | Brigand/Chatter/Symbols.cs:78-138 | no character is both a word character and a punctuation mark |
| BinaryFormat.StringRoundTrip | Brigand/Chatter/Symbols.cs:26-49 | reading a string back from what the writer's length-prefixed string encoding produced, followed by any further bytes, gives the string and exactly the further bytes |
| StringParser.UrlEnd | Brigand/Chatter/StringParser.cs:21-24 | the URL loop stops at the first white space at or after its start, or at the end of the input |
| StringParser.ReadUrl | Brigand/Chatter/StringParser.cs:21-25 | the inner loop returns the buffered "http"/"https" followed by the input up to that white space, and the position it stopped at |
| StringParser.Parse | Brigand/Chatter/StringParser.cs:8-52 | the loop yields exactly the scan of the input: nothing for null, otherwise the symbols of the reference scan |
| StringParser.Emitted | Brigand/Chatter/StringParser.cs:31-45 | a separator character yields the pending word (upper-cased) if there is one, then its punctuation symbol exactly when it is a mark |
| StringParser.ScanWellFormed | Brigand/Chatter/StringParser.cs:17-51 | from any position, with word characters pending, the scan ends in one Terminate that is its only Terminate, and every word and URL it emits is well-formed |
| StringParser.UrlWellFormed | Brigand/Chatter/StringParser.cs:19-27 | a URL starts with "http:" or "https:" and holds no white space |
| StringParser.FlushedWord | Brigand/Chatter/StringParser.cs:31-33 | a flushed buffer becomes a non-empty, upper-cased word of word characters |
| StringParser.TokenizeWellFormed | Brigand/Chatter/StringParser.cs:8-52 | null input yields no symbols; any other input, "" included, yields well-formed symbols ending in their only Terminate |
| StringParser.ScanText | Brigand/Chatter/StringParser.cs:17-45 | when no URL is recognised, the emitted symbols spell out, in order and upper-cased, exactly the word characters and punctuation marks of the input; every other separator is dropped |
| StringParser.TokenizeText | Brigand/Chatter/StringParser.cs:8-52 | a URL-free parse of a string spells out its upper-cased word characters and marks |
| StringParser.Format | Brigand/Chatter/StringParser.cs:54-91 | the loop returns the rendering of the symbols before the first Terminate, or the exception a Substring of an empty word throws |
| StringParser.FormatStopsAtTerminate | Brigand/Chatter/StringParser.cs:61-64 | nothing from the first Terminate on reaches the output |
| StringParser.RenderSnoc | Brigand/Chatter/StringParser.cs:65-84 | Render's definition for one more symbol, used by the Render lemmas: a space exactly when output exists and the symbol is not punctuation, then the symbol's piece |
| StringParser.RenderPunctuation | Brigand/Chatter/StringParser.cs:65-88 | a punctuation mark is appended as itself with no space before it |
| StringParser.PieceMark | Brigand/Chatter/StringParser.cs:74-84 | case mapping leaves a mark unchanged, at a sentence start or not |
| StringParser.RenderUrl | Brigand/Chatter/StringParser.cs:69-73 | a URL is appended verbatim, after one space when output exists |
| StringParser.RenderWordAtSentenceStart | Brigand/Chatter/StringParser.cs:74-80 | at a sentence start (first symbol, or after a terminating mark) a word is appended with its first character upper-cased and the rest lower-cased |
| StringParser.RenderWordInSentence | Brigand/Chatter/StringParser.cs:81-84 | inside a sentence a word is appended lower-cased, after one space when output exists |
| StringParser.PieceWord | Brigand/Chatter/StringParser.cs:74-84 | a non-empty word is written capitalised at a sentence start and lower-cased otherwise |
| SymbolTable.Truncate | Brigand/Chatter/SymbolDictionary.cs:19 | the (ushort) cast leaves a value below 65,536 unchanged |
| SymbolTable.IdsOf | Brigand/Chatter/SymbolDictionary.cs:8-21 | the lookup table that belongs to a store holds exactly the store's symbols |
| SymbolTable.SymbolDictionary.constructor | Brigand/Chatter/SymbolDictionary.cs:8-9 | a new table is empty and valid |
| SymbolTable.SymbolDictionary.AddSymbol | Brigand/Chatter/SymbolDictionary.cs:11-22 | a known symbol returns its existing id and changes nothing; a new one is appended and gets the old count cast to ushort; afterwards lookup[s] is the id, old entries keep their ids, below 65,536 entries store[id] is s, and a duplicate-free store stays duplicate-free |
| SymbolTable.SymbolDictionary.AddSymbols | Brigand/Chatter/Model.cs:181-182 | interning a list (AddSymbol in turn) only appends symbols of the list, and each returned id is the lookup of its symbol and indexes the store |
| SymbolTable.SymbolDictionary.SymbolAt | Brigand/Chatter/SymbolDictionary.cs:24-30 | this[token] succeeds exactly for a token below the store's length, and gives store[token] |
| SymbolTable.SymbolDictionary.IdOf | Brigand/Chatter/SymbolDictionary.cs:32-38 | this[sym] succeeds exactly for a registered symbol (KeyNotFound otherwise) and gives its id |
| SymbolTable.SymbolDictionary.Count | Brigand/Chatter/SymbolDictionary.cs:40-46 | Count is the store's length |
| SymbolTable.SymbolDictionary.Save | Brigand/Chatter/SymbolDictionary.cs:48-55 | the loop writes the count cast to ushort, then every symbol in store order |
| SymbolTable.SymbolDictionary.Load | Chatter/SymbolDictionary.cs:60-69 | Load succeeds exactly when the stream holds a count and that many symbols; it appends them to the store and registers store[i] with id i unless already known, returning the bytes after them |
| SymbolTable.IdsBelow | Brigand/Chatter/SymbolDictionary.cs:18-21 | every id handed out indexes the store |
| SymbolTable.IdsOfAppend | Chatter/SymbolDictionary.cs:14-25 | appending a known symbol leaves the table as it was; appending a new one adds it with the next id (the old count cast to ushort) |
| SymbolTable.IdsOfAppendKeeps | Brigand/Chatter/SymbolDictionary.cs:18-20 | appending keeps the id of every symbol already stored |
| SymbolTable.IdsOfDistinct | Brigand/Chatter/SymbolDictionary.cs:18-21 | in a duplicate-free store, each entry's id is its index cast to ushort |
| SymbolTable.IdsAreBijective | Brigand/Chatter/SymbolDictionary.cs:11-38 | up to 65,536 distinct entries, store[lookup[s]] == s and two symbols with the same id are equal |
| SymbolTable.IdsAlias | Chatter/SymbolDictionary.cs:22 | past 65,536 distinct entries, entries 0 and 65,536 differ but share id 0 |
| SymbolTable.LoadIdsFresh | Brigand/Chatter/SymbolDictionary.cs:57-68 | loading into an empty table registers each symbol with the index of its first occurrence: the first id wins on duplicates |
| SymbolTable.ReadSaveAll | Brigand/Chatter/SymbolDictionary.cs:51-62 | reading n symbols back from the n symbols written gives them and exactly the bytes after them |
| SymbolTable.SaveDecode | Chatter/SymbolDictionary.cs:51-69 | below 65,536 entries Load's reading of Save's bytes returns the store in order, then the bytes after it |
| SymbolTable.SaveCountWraps | Chatter/SymbolDictionary.cs:53 | with exactly 65,536 entries the saved count wraps to 0 and Load reads back no symbols |
| SymbolTable.SaveLoadRoundTrip | Brigand/Chatter/SymbolDictionary.cs:48-68 | saving and loading into an empty table reproduces the store in order and its lookup table, and for a duplicate-free store every id is its index |
| Trie.IndexOfToken | Chatter/Node.cs:63-72 | the position of the first child carrying a token, or the number of children when none does |
| Trie.Rank | Chatter/Node.cs:26-61 | on ascending children, every child before the rank has a smaller token and every child from it on a larger or equal one |
| Trie.RankUnique | Chatter/Node.cs:44-58 | a split point with only smaller tokens before it and only larger ones after it is the rank |
| Trie.Search | Chatter/Node.cs:26-61 | found means children[i] carries the token; on ascending children found holds exactly when some child carries the token, i is then that child's index and otherwise the insertion point (the rank) |
| Trie.FindChild | Chatter/Node.cs:63-72 | a child is found exactly when one carries the token, and it is a child with that token |
| Trie.Find | Chatter/Node.cs:63-72 | Find gives null exactly when no child carries the token, and otherwise the child that does |
| Trie.Grow | Chatter/Node.cs:99-105 | the copy loop gives a fresh array one longer whose first entries are the old children, in order |
| Trie.AddNode | Chatter/Node.cs:91-115 | the new node sits at pos, the children before pos stay in place and the rest move one place right, in order |
| Trie.WithChild | Chatter/Node.cs:74-89 | the node after FindOrAdd keeps its token and has a child carrying the token |
| Trie.FindOrAdd | Chatter/Node.cs:74-89 | FindOrAdd returns the child carrying the token at its index; the number of children grows by one exactly when the token was absent |
| Trie.AscendingSplice | Chatter/Node.cs:108-112 | a node placed between the smaller and the larger tokens keeps the children strictly ascending |
| Trie.WithChildAscending | Chatter/Node.cs:74-115 | FindOrAdd keeps the children strictly ascending, keeps every old child, adds nothing but the new leaf, and places the leaf at the token's rank |
| Trie.WithChildFind | Chatter/Node.cs:74-115 | after FindOrAdd(t) a lookup of t finds the new leaf when t was absent, and every other lookup finds what it found before |
| Trie.Insert | Brigand/Chatter/Model.cs:35-42 | Associate (FindOrAdd along a path from the root) keeps the root's token |
| Trie.InsertFind | Brigand/Chatter/Model.cs:35-42 | after Associate the root's child for the first token is that child associated with the rest of the path; other children are unchanged |
| Trie.InsertContains | Brigand/Chatter/Model.cs:35-42 | after Associate the whole path is in the trie |
| Trie.InsertKeeps | Brigand/Chatter/Model.cs:35-42 | Associate never loses a path that was in the trie |
| Trie.LeafContains | Chatter/Node.cs:84-85 | a fresh node holds the empty path only |
| Trie.InsertOnlyAdds | Brigand/Chatter/Model.cs:35-42 | every path after Associate was there before or is a prefix of the associated path |
| Trie.InsertIdempotent | Brigand/Chatter/Model.cs:35-42 | associating a path already present leaves the trie unchanged |
| Trie.WithChildSorted | Chatter/Node.cs:74-115 | FindOrAdd keeps a trie sorted at every level |
| Trie.InsertSorted | Brigand/Chatter/Model.cs:35-42 | Associate keeps the trie sorted at every level |
| Trie.InsertAll | Brigand/Chatter/Model.cs:59-77 | associating a list of paths in turn keeps the root's token |
| Trie.InsertAllAppend | Brigand/Chatter/Model.cs:59-77 | associating two lists of paths is associating the first, then the second |
| Trie.InsertAllContains | Brigand/Chatter/Model.cs:59-77 | after associating a list of paths each of them is in the trie |
| Trie.InsertAllKeeps | Brigand/Chatter/Model.cs:59-77 | associating paths keeps every path that was there |
| Trie.InsertAllOnlyAdds | Brigand/Chatter/Model.cs:59-77 | a path of the result was there before or is a prefix of an associated path |
| Trie.InsertAllPresent | Brigand/Chatter/Model.cs:59-77 | associating paths that are all present changes nothing |
| Trie.InsertAllTwice | Brigand/Chatter/Model.cs:59-77 | associating the same paths twice gives the same trie as once |
| Trie.InsertAllSorted | Brigand/Chatter/Model.cs:59-77 | associating paths keeps the trie sorted |
| Trie.TokensBelowMono | Brigand/Chatter/Model.cs:35-42 | a trie whose tokens are below a bound is below every larger bound |
| Trie.InsertTokensBelow | Brigand/Chatter/Model.cs:35-42 | associating a path of ids below a bound keeps every token of the trie below it |
| Trie.InsertAllTokensBelow | Brigand/Chatter/Model.cs:59-77 | the same for a list of paths |
| Trie.ContainsTokensBelow | Brigand/Chatter/Model.cs:44-53 | every token on a path of such a trie is below the bound |
| Trie.WalkKeepsInvariants | Brigand/Chatter/Model.cs:44-53 | the node Find reaches is sorted and has tokens below the bound when the root does |
| Trie.WalkExtends | Brigand/Chatter/Model.cs:122-125 | a child of the node Find reaches extends the walked path to a path of the trie |
| Trie.ReadNode | Chatter/Node.cs:128-142 | decoding a node consumes at least one byte when it succeeds |
| Trie.ReadChildren | Chatter/Node.cs:135-140 | decoding branch children gives exactly branch nodes and never grows the input |
| Trie.PrependNothing | Chatter/Node.cs:135-140 | no children read so far leaves the remaining decode as it is |
| Trie.PrependCons | Chatter/Node.cs:135-140 | reading one more child extends the children read so far by that child |
| Trie.Read | Chatter/Node.cs:128-142 | the loop (token, branch, then each child in turn) gives exactly the result of the recursive decoder, failure included |
| Trie.ReadWrite | Chatter/Node.cs:117-142 | decoding what Write wrote, followed by any bytes, rebuilds the node and leaves those bytes, for every tree with fewer than 65,536 children per node |
| Trie.ReadWriteChildren | Chatter/Node.cs:122-140 | decoding the children written from index i gives those children and the bytes that followed |
| Trie.CountAboveIsZero | Chatter/Node.cs:144-155 | counting a level above the receiver's level gives 0 |
| Trie.CountChildrenAboveIsZero | Chatter/Node.cs:147-153 | the same for the children from index i |
| Trie.CountChildrenAtTheirLevel | Chatter/Node.cs:144-155 | counting the children's own level counts each child once |
| Trie.CountLevelTwo | Chatter/Node.cs:157-160 | Count(2) is the number of the receiver's children |
| Trie.CountLevelOne | Chatter/Node.cs:157-160 | Count(1) is 1, the receiver |
| Trie.CountAtAnyLevel | Chatter/Node.cs:162-165 | counting every node (-1) gives the same from any starting level |
| Trie.CountChildrenAtAnyLevel | Chatter/Node.cs:147-153 | the same for the children from index i |
| Trie.CountBytesFormula | Chatter/Node.cs:167-179 | Count() is at least 1 and CountBytes is sizeof(Node) = 4 + p per node plus one pointer p per edge: (4 + p) * Count() + p * (Count() - 1) |
| Trie.BytesOfChildrenFormula | Chatter/Node.cs:170-177 | the children's bytes plus their pointers are (4 + 2p) per node below the receiver |
| ChatterModel.TuplesBelow | Brigand/Chatter/Model.cs:66-77 | the backward tuples Learn associates hold only ids of the table and the terminator's id |
| ChatterModel.Associate | Brigand/Chatter/Model.cs:35-42 | the loop calling FindOrAdd token by token, descending into the child it returns, builds exactly the trie Insert describes |
| ChatterModel.FindPath | Brigand/Chatter/Model.cs:44-53 | the loop calling Find token by token, stopping at the first null, gives exactly Walk: the root for no tokens, null as soon as a step is missing |
| ChatterModel.NextToken | Brigand/Chatter/Model.cs:122-125 | GetNextToken returns the token of one of the node's children, whatever the draw |
| ChatterModel.PickExtends | Brigand/Chatter/Model.cs:87-93 | a token drawn after a path continues that path in the trie and is an id the table handed out |
| ChatterModel.ForwardStep | Brigand/Chatter/Model.cs:59-65 | one iteration of Learn associates the window starting at i exactly when i + Order is inside the list |
| ChatterModel.BackwardStep | Brigand/Chatter/Model.cs:66-77 | one iteration of Learn associates the reversed first Order tokens plus the terminator at i = Order - 1, and the reversed window ending at i when i >= Order and token i is not the terminator |
| ChatterModel.WindowInForwardPaths | Brigand/Chatter/Model.cs:59-65 | every window of Order + 1 tokens started before i is among the forward paths of the first i iterations |
| ChatterModel.ForwardPathWindow | Brigand/Chatter/Model.cs:59-65 | every forward path of the first i iterations is a window started before i |
| ChatterModel.ForwardPathsToAreWindows | Brigand/Chatter/Model.cs:59-65 | the forward paths of the first i iterations are exactly the windows started before i |
| ChatterModel.ForwardPathsAreWindows | Brigand/Chatter/Model.cs:59-65 | Learn associates, forward, exactly every window T[j..j+2] |
| ChatterModel.BackwardTupleIs | Brigand/Chatter/Model.cs:75 | the reversed window ending at k is [T[k], T[k-1], T[k-2]] |
| ChatterModel.BackwardPathsToLast | Brigand/Chatter/Model.cs:66-77 | the backward paths of i iterations are those of i - 1 plus what iteration i - 1 adds |
| ChatterModel.StartInBackwardPaths | Brigand/Chatter/Model.cs:66-72 | once Order iterations have run, [T[1], T[0], terminator] is among the backward paths |
| ChatterModel.TupleInBackwardPaths | Brigand/Chatter/Model.cs:73-77 | each reversed window ending before i at a non-terminator token is among the backward paths |
| ChatterModel.BackwardPathSource | Brigand/Chatter/Model.cs:66-77 | every backward path is the start tuple or a reversed window ending at a non-terminator |
| ChatterModel.BackwardPathsToAre | Brigand/Chatter/Model.cs:66-77 | the backward paths of i iterations are exactly the start tuple (once i >= Order) and the reversed windows ending before i at a non-terminator |
| ChatterModel.BackwardPathsAre | Brigand/Chatter/Model.cs:66-77 | for three tokens or more, Learn associates backward exactly [T[1], T[0], terminator] and every [T[k], T[k-1], T[k-2]] whose T[k] is not the terminator |
| ChatterModel.LearnedWindows | Brigand/Chatter/Model.cs:59-65 | after Learn every window of three tokens is a path of the forward trie |
| ChatterModel.LearnedOnlyWindows | Brigand/Chatter/Model.cs:59-65 | every path of the forward trie after Learn was there before or is a prefix of a window of the list |
| ChatterModel.LearnedReversedWindows | Brigand/Chatter/Model.cs:73-77 | after Learn every reversed window ending at a non-terminator is a path of the backward trie |
| ChatterModel.LearnedStart | Brigand/Chatter/Model.cs:66-72 | after Learn [T[1], T[0], terminator] is a path of the backward trie |
| ChatterModel.LearnTwice | Brigand/Chatter/Model.cs:55-79 | learning the same token list a second time changes neither trie |
| ChatterModel.FindWindow | Brigand/Chatter/Model.cs:133-147 | the inner loop of SeedReply finds the first window of length o, from i on, that is a path of the forward trie, or reports that none is |
| ChatterModel.ContainsNeedsChildren | Brigand/Chatter/Model.cs:149-155 | a trie holding a non-empty path has a child at the root |
| ChatterModel.SeedIsKnown | Brigand/Chatter/Model.cs:127-156 | the seed is empty exactly when the forward root has no children; otherwise it is a path of the forward trie, of at most tryOrder tokens |
| ChatterModel.SeedSource | Brigand/Chatter/Model.cs:127-156 | a seed is empty, a contiguous window of the input, or, when no input token starts a path, one child token of the forward root |
| ChatterModel.AssociateBelow | Brigand/Chatter/Model.cs:35-42 | Associate keeps a trie sorted with every token an id of the table |
| ChatterModel.LearnForward | Brigand/Chatter/Model.cs:59-65 | the forward half of one iteration of Learn's loop associates exactly that iteration's path and keeps the trie well formed |
| ChatterModel.LearnBackward | Brigand/Chatter/Model.cs:66-77 | the backward half of one iteration associates exactly that iteration's paths and keeps the trie well formed |
| ChatterModel.LearnTries | Brigand/Chatter/Model.cs:59-78 | Learn's loop leaves the forward trie with every forward path and the backward trie with every backward path associated, both well formed |
| ChatterModel.BackwardStepPath | Brigand/Chatter/Model.cs:102-120 | the path a token was drawn after, backward, ends in that token and has at most Order + 1 tokens |
| ChatterModel.ForwardStepPath | Brigand/Chatter/Model.cs:81-100 | the path a token was drawn after, forward, ends in that token and has at most Order + 1 tokens |
| ChatterModel.SoftStopAppend | Brigand/Chatter/Model.cs:99 | appending a token keeps "nothing stopped the reply before its last token" |
| ChatterModel.BackwardStepPathPrepend | Brigand/Chatter/Model.cs:118 | prepending a token shifts every earlier backward step path by one place |
| ChatterModel.BackwardStepPathAppend | Brigand/Chatter/Model.cs:98 | appending a token leaves earlier backward step paths as they were |
| ChatterModel.ForwardStepPathAppend | Brigand/Chatter/Model.cs:98 | appending a token leaves earlier forward step paths as they were |
| ChatterModel.BackwardStepPathFront | Brigand/Chatter/Model.cs:107-118 | the path of a prepended token is the backward context of the reply, then the token |
| ChatterModel.BackwardChainPrepend | Brigand/Chatter/Model.cs:102-120 | prepending a token drawn after the backward context, neither terminator nor terminating punctuation, keeps every prepended token justified by the backward trie |
| ChatterModel.BackwardChainAppend | Brigand/Chatter/Model.cs:98 | appending a token keeps the backward justification of the earlier tokens |
| ChatterModel.ForwardChainAppend | Brigand/Chatter/Model.cs:81-100 | appending a non-terminator drawn after the forward context keeps every appended token justified by the forward trie |
| ChatterModel.SymbolsAt | Brigand/Chatter/Model.cs:183 | mapping ids to symbols keeps the length and gives the table's symbol at each position |
| ChatterModel.AddWordForward | Brigand/Chatter/Model.cs:81-100 | the reply is unchanged exactly when nothing follows the last Order tokens or the drawn token is the terminator; otherwise the drawn token is appended, continues a path of the forward trie and is an id; it returns true exactly when a token was appended that is not terminating punctuation at length 25 or more |
| ChatterModel.AddWordBackward | Brigand/Chatter/Model.cs:102-120 | on false the reply is unchanged and nothing, a terminator or terminating punctuation was drawn; on true the drawn token, neither of those, is prepended and continues a path of the backward trie |
| ChatterModel.SeedReply | Brigand/Chatter/Model.cs:127-156 | the two loops give exactly the seed for tryOrder = draw mod Order + 1 |
| ChatterModel.GrowBackward | Brigand/Chatter/Model.cs:167 | the first loop keeps the seed at the end, stays within 100 tokens, justifies each prepended token, and stops before 100 only when AddWordBackward declined |
| ChatterModel.BackwardWord | Brigand/Chatter/Model.cs:167 | one turn of the first loop keeps its invariant and grows the reply by one token exactly when it returns true |
| ChatterModel.GrowForward | Brigand/Chatter/Model.cs:168 | the second loop keeps what came before, stays within 100 tokens, justifies each appended token, stops only after the soft cutoff rule or the hard cutoff, and before 100 only when AddWordForward declined |
| ChatterModel.ForwardWord | Brigand/Chatter/Model.cs:168 | one turn of the second loop keeps its invariant and grows the reply by at most one token |
| ChatterModel.ReplyBody | Brigand/Chatter/Model.cs:158-168 | the reply is empty exactly when the forward root has no children; otherwise it is at most 100 ids: tokens justified backward, the seed, tokens justified forward |
| ChatterModel.GrownReplyExtends | Brigand/Chatter/Model.cs:169 | interning the terminator after growing does not change what justified the reply |
| ChatterModel.HasReply | Chatter/Model.cs:328-340 | the comparison loop sets hasReply exactly when the reply differs from the input symbols, element by element |
| ChatterModel.Prefixed | Chatter/Model.cs:342-345 | the identical-reply text is "I understand: " followed by the formatted reply |
| ChatterModel.SaveLoad | Brigand/Chatter/Model.cs:189-216 | Load of what Save wrote, followed by any bytes, gives back the table and both tries, when the table has fewer than 65,536 symbols and every node fewer than 65,536 children |
| ChatterModel.DecodeModelSteps | Brigand/Chatter/Model.cs:209-211 | Load reads the table, then the forward trie, then the backward trie, each from where the previous stopped |
| ChatterModel.Load | Brigand/Chatter/Model.cs:202-216 | Load succeeds exactly when the bytes decode, and then holds the decoded table and tries in a fresh model |
| ChatterModel.IdsAllBelow | Brigand/Chatter/SymbolDictionary.cs:11-22 | every id of the table's lookup indexes the store |
| ChatterModel.RootAlone | Brigand/Chatter/Model.cs:243-249 | TotalNodeCount is 1 exactly when nothing was learned forward |
| ChatterModel.ChildrenCountPositive | Chatter/Node.cs:147-153 | a child counts at least itself |
| ChatterModel.Model.constructor | Brigand/Chatter/Model.cs:21-25 | a new model has an empty table and two empty roots with token 0 |
| ChatterModel.Model.Learn | Brigand/Chatter/Model.cs:55-79 | fewer than three tokens leave both tries unchanged; otherwise the forward trie gains exactly the forward paths and the backward trie exactly the backward paths; the model stays valid |
| ChatterModel.Model.Intern | Brigand/Chatter/Model.cs:175-176 | interning only appends symbols of the list to the table, and returns, position by position, each symbol's id |
| ChatterModel.Model.Reply | Brigand/Chatter/Model.cs:158-171 | the reply is empty exactly when the forward root has no children; otherwise it is a grown reply of at most 100 tokens followed by the terminator's id, and interning the terminator is the only change to the table |
| ChatterModel.Model.LearnText | Brigand/Chatter/Model.cs:173-177 | Learn(string) interns the parsed symbols and learns their ids |
| ChatterModel.Model.Query | Brigand/Chatter/Model.cs:179-187 | Query interns the input, replies from the tries as they were before, then learns the input, and returns the formatted reply |
| ChatterModel.Model.QueryEcho | Chatter/Model.cs:321-346 | the earlier Query prefixes "I understand: " exactly when the reply's symbols equal the input's |
| ChatterModel.Model.Respond | Brigand/Chatter/Model.cs:182-184 | replying happens before learning, so the reply comes from the tries as they were |
| ChatterModel.Model.SymbolCount | Brigand/Chatter/Model.cs:221-227 | the number of symbols, above every id handed out |
| ChatterModel.Model.TotalTupleCount | Brigand/Chatter/Model.cs:232-238 | Count(Order) of the forward trie, which is the number of the root's children |
| ChatterModel.Model.TotalNodeCount | Brigand/Chatter/Model.cs:243-249 | every node of the forward trie, the root included, so at least 1 and 1 exactly when it is bare |
| ChatterModel.Model.TotalBytesUsed | Brigand/Chatter/Model.cs:254-260 | (4 + p) per node plus p per edge of the forward trie |
| ChatterModel.Model.Save | Brigand/Chatter/Model.cs:189-200 | the table, then the forward trie, then the backward trie |
| IrcPeers.SplitUserMask | Brigand/Net/IrcPeers.cs:59-67 | a well-formed nick!user@host has '@' and '!' after position 0 and splits back into nick, user and host |
| IrcPeers.PrefixToString | Brigand/Net/IrcPeers.cs:45-51 | a server prefix prints its host name, a user prefix nick!user@host (null parts print as empty) |
| IrcPeers.SplitUser | Brigand/Net/IrcPeers.cs:61-65 | splitting a user mask succeeds exactly when the part before the first '@' holds a '!' (otherwise s2[1] is out of range) |
| IrcPeers.SplitCount | Brigand/Net/IrcPeers.cs:61-63 | Split gives two pieces or more exactly when the separator occurs |
| IrcPeers.ParsePrefix | Brigand/Net/IrcPeers.cs:53-72 | null parses to null; a string without '@' and '!' after position 0 becomes a server prefix holding it as host name; a user mask parses, when it can, to a user prefix whose NickUserHost is the whole string |
| IrcPeers.ServerPrefixRoundTrip | Brigand/Net/IrcPeers.cs:34-72 | a server name parses to a server prefix that prints back as the same name |
| IrcPeers.UserPrefixRoundTrip | Brigand/Net/IrcPeers.cs:45-72 | a well-formed nick!user@host parses to exactly its parts and prints back as itself |
| IrcPeers.PrefixBangAfterAt | Brigand/Net/IrcPeers.cs:59-64 | a prefix with its '!' only after the '@' makes Parse throw IndexOutOfRangeException |
| IrcPeers.TargetOfPrefix | Brigand/Net/IrcPeers.cs:153-159 | a target built from a prefix is never a channel |
| IrcPeers.PrefixTargetAgree | Brigand/Net/IrcPeers.cs:153-175 | the target built from a parsed prefix prints as the prefix does |
| IrcPeers.TargetToString | Brigand/Net/IrcPeers.cs:165-175 | a channel prints its name, a host-only target its host, a full user nick!user@host |
| IrcPeers.ParseTarget | Brigand/Net/IrcPeers.cs:182-199 | the target is a channel exactly for names starting with '#' or '&'; otherwise a '*' after position 0 gives a host-only mask, a user mask a full user (when it splits), anything else a bare nickname |
| IrcPeers.TargetRoundTrip | Brigand/Net/IrcPeers.cs:165-199 | a channel, a host mask and a bare nickname print back as themselves |
| IrcPeers.NoStarAfterFirst | Brigand/Net/IrcPeers.cs:186 | a user mask with no '*' after its first character is not taken for a host mask |
| IrcPeers.UserTargetRoundTrip | Brigand/Net/IrcPeers.cs:165-199 | a well-formed nick!user@host parses to a full user with exactly its parts and prints back as itself |
| IrcMessages.ParameterFaultExactly | Brigand/Net/IrcMessage.cs:32-35 | the constructor's check raises no fault exactly when every parameter but the last is non-null and free of spaces |
| IrcMessages.Construct | Brigand/Net/IrcMessage.cs:25-36 | construction succeeds exactly when the prefix parses and the parameters are well formed, and then keeps the prefix, its parsed peer, the upper-cased command and the parameters |
| IrcMessages.NewMessage | Brigand/Net/IrcMessage.cs:25-36 | the constructor's loop gives exactly the construction result, fault included |
| IrcMessages.AppendText | Brigand/Net/IrcMessage.cs:44-53 | writing parameter i and then the rest is writing the parameters from i |
| IrcMessages.ToString | Brigand/Net/IrcMessage.cs:38-56 | the loop writes ":prefix " when there is a prefix, the command, then each non-null parameter after a space, the last one after " :" |
| IrcMessages.Window | Brigand/Net/IrcMessage.cs:62-63 | Parse reads the first 512 characters at most |
| IrcMessages.Rest | Brigand/Net/IrcMessage.cs:82-110 | the characters from a cursor on, none when the cursor is past the end |
| IrcMessages.WordEnd | Brigand/Net/IrcMessage.cs:82-87 | a word runs to the first space, or to the end |
| IrcMessages.Word | Brigand/Net/IrcMessage.cs:82-88 | the command is the longest space-free start of the text |
| IrcMessages.WordEndAt | Brigand/Net/IrcMessage.cs:82-87 | any position where the first space (or the end) is found is the word's end |
| IrcMessages.Skip | Brigand/Net/IrcMessage.cs:90 | stepping over a word and its space shortens the text |
| IrcMessages.Present | Brigand/Net/IrcMessage.cs:107 | every parameter Parse collects is non-null |
| IrcMessages.SkipRest | Brigand/Net/IrcMessage.cs:88-90 | moving the cursor past a scanned word and its space is Skip |
| IrcMessages.WordOf | Brigand/Net/IrcMessage.cs:82-90 | a space-free word followed by a space or nothing is read as exactly that word |
| IrcMessages.Scan | Brigand/Net/IrcMessage.cs:101-106 | the character loop collects the rest of the line when trailing, else the word at the cursor, leaving the cursor after it |
| IrcMessages.ScanPrefix | Brigand/Net/IrcMessage.cs:68-80 | a leading ':' introduces a prefix that runs to the first space, and the cursor moves past it |
| IrcMessages.ScanCommand | Brigand/Net/IrcMessage.cs:82-90 | the command runs to the next space, and the cursor moves past it |
| IrcMessages.Parse | Brigand/Net/IrcMessage.cs:58-113 | Parse gives exactly ParseLine: an empty line faults (c[0]), otherwise prefix, command and parameters of the first 512 characters go to the constructor |
| IrcMessages.ParameterStep | Brigand/Net/IrcMessage.cs:93-110 | one turn of the parameter loop reads a trailing parameter to the end or a middle one to the next space |
| IrcMessages.ScanParameter | Brigand/Net/IrcMessage.cs:95-109 | the turn's cursor moves forward and its text is the next parameter |
| IrcMessages.ParseParameters | Brigand/Net/IrcMessage.cs:92-110 | the parameter loop collects exactly the parameters of the rest of the line |
| IrcMessages.ParametersSpaceFree | Brigand/Net/IrcMessage.cs:92-112 | every parameter Parse collects but the last is free of spaces, so Parse never trips the constructor's check |
| IrcMessages.ParseFailsOnlyOnPrefix | Brigand/Net/IrcMessage.cs:58-113 | Parse fails exactly on an empty line or a prefix IrcPrefix.Parse cannot split |
| IrcMessages.PresentCons | Brigand/Net/IrcMessage.cs:107 | collecting one more parameter |
| IrcMessages.ParametersTextStart | Brigand/Net/IrcMessage.cs:44-53 | written parameters from i are non-empty exactly when some remain, and start with a space |
| IrcMessages.LastParameterText | Brigand/Net/IrcMessage.cs:50-52 | the last parameter is written after " :" |
| IrcMessages.MiddleParameterText | Brigand/Net/IrcMessage.cs:49-52 | a middle parameter is written after a space and before the next one's space |
| IrcMessages.ParametersOfMiddle | Brigand/Net/IrcMessage.cs:101-109 | a space-free middle parameter not starting with ':' is read back as itself |
| IrcMessages.ParametersRoundTrip | Brigand/Net/IrcMessage.cs:44-53 | reading back the written parameters from i gives exactly those parameters |
| IrcMessages.PrefixedHead | Brigand/Net/IrcMessage.cs:68-80 | a space-free prefix written after ':' is read back as itself |
| IrcMessages.HeadRoundTrip | Brigand/Net/IrcMessage.cs:38-80 | the prefix of a written line is read back, and the rest is the command and parameters |
| IrcMessages.TailRoundTrip | Brigand/Net/IrcMessage.cs:44-110 | the command and parameters of a written line are read back |
| IrcMessages.ParseToString | Brigand/Net/IrcMessage.cs:38-113 | Parse(ToString(m)) == m for every message of at most 512 characters with a splittable space-free prefix, an upper-case space-free command, non-null parameters and non-empty middle parameters that have no space and do not start with ':' |
| IrcClient.FirstLineLength | Brigand/Modules/Irc.cs:308-312 | the first chunk ends at the last split character among the first MaxTextLength characters, or is exactly MaxTextLength long when there is none |
| IrcClient.Lines | Brigand/Modules/Irc.cs:304-319 | Say queues at least one line, and exactly the whole text when it is Raw, MaxTextLength is not positive or the text is not longer |
| IrcClient.LinesConcat | Brigand/Modules/Irc.cs:304-319 | the queued lines concatenate to the text |
| IrcClient.LinesBounded | Brigand/Modules/Irc.cs:304-319 | with Split and a positive MaxTextLength every queued line is at most MaxTextLength long, and non-empty for a non-empty text |
| IrcClient.SplitPosition | Brigand/Modules/Irc.cs:308-311 | the backward scan gives the index of the first chunk's last character |
| IrcClient.Privmsg | Brigand/Modules/Irc.cs:317 | a PRIVMSG without prefix whose parameters are the recipient and the text |
| IrcClient.Privmsgs | Brigand/Modules/Irc.cs:304-319 | one PRIVMSG per line, in order |
| IrcClient.PrivmsgFails | Brigand/Modules/Irc.cs:317 | the PRIVMSG constructor faults exactly when the recipient holds a space |
| IrcClient.SayStep | Brigand/Modules/Irc.cs:312-313 | queuing the first chunk raw and then the rest split queues the lines of the whole text |
| IrcClient.ModeParameters | Brigand/Modules/Irc.cs:276-280 | Mode's parameters are the target's text, the modes, then the mode arguments |
| IrcClient.ModeParameterArray | Brigand/Modules/Irc.cs:276-280 | the loop fills a fresh array with exactly those parameters |
| IrcClient.ModeOf | Brigand/Modules/Irc.cs:51-60 | the MODE handler succeeds exactly with two parameters or more and a first one that parses as a target; the modes are the second parameter, the arguments those from index 2 on |
| IrcClient.ModeArguments | Brigand/Modules/Irc.cs:55-57 | the copy loop gives the parameters from index 2 on |
| IrcClient.Irc.constructor | Brigand/Modules/Irc.cs:19 | a new client splits at spaces and has queued nothing |
| IrcClient.Irc.Say | Brigand/Modules/Irc.cs:304-319 | Say queues one PRIVMSG per line of the split, in order, and changes nothing else; it faults, queuing nothing, exactly when the recipient has a space |
| IrcClient.Irc.Mode | Brigand/Modules/Irc.cs:274-282 | Mode queues the MODE message built from the target's channel or nickname and the parameters, or faults as the constructor does |
| IrcClient.ChatTarget | Brigand/Modules/Irc.cs:73-88 | the target KICK (second parameter), PRIVMSG and NOTICE (first parameter) parse: ArgumentOutOfRange without the parameter, NullReference for a null one, otherwise IrcTarget.Parse's result, failing exactly when one of these does |
| IrcClient.ChatTargetFaults | Brigand/Modules/Irc.cs:79-82 | a PRIVMSG with no parameters, and a PRIVMSG to "a@b!c", make the target parse throw |
| IrcClient.Irc.ProcessMessage | Brigand/Modules/Irc.cs:21-88 | PING queues a PONG; NICK from the client itself sets Nickname to the first parameter (faulting without one) and any other NICK changes nothing; MODE with a handler reports ModeOf; KICK, PRIVMSG and NOTICE throw exactly when their target does not parse and otherwise change nothing; JOIN, PART, TOPIC, INVITE and unknown commands change nothing |
| WordBreaking.SplitIndexAsWritten | Brigand/Rss/StringExtensions.cs:21-29 | the split as written is -1 exactly when no split character is among the first lineLength characters |
| WordBreaking.WordBreakStalls | Brigand/Rss/StringExtensions.cs:26-31 | then the line yielded is empty and the input is unchanged, so the loop never ends |
| WordBreaking.WordBreakStallsOnExample | Brigand/Rss/StringExtensions.cs:26-31 | "abcdef" with lineLength 3 is such an input |
| WordBreaking.LineLength | Brigand/Rss/StringExtensions.cs:21-30 | the line ends after the last split character beyond position 0 among the first lineLength characters, or is lineLength long when there is none |
| WordBreaking.AsWrittenAgrees | Brigand/Rss/StringExtensions.cs:21-30 | where the code as written finds a split, it agrees with the corrected one |
| WordBreaking.ShortInput | Brigand/Rss/StringExtensions.cs:34-37 | an input no longer than lineLength yields itself, or nothing when empty |
| WordBreaking.LinesConcat | Brigand/Rss/StringExtensions.cs:17-38 | the lines concatenate to the input |
| WordBreaking.LinesBounded | Brigand/Rss/StringExtensions.cs:17-38 | every line is non-empty and at most lineLength long |
| WordBreaking.LinesStep | Brigand/Rss/StringExtensions.cs:30-31 | the lines are the first line and the lines of the rest |
| WordBreaking.SplitIndex | Brigand/Rss/StringExtensions.cs:21-29 | the backward scan gives the index of the line's last character |
| WordBreaking.WordBreak | Brigand/Rss/StringExtensions.cs:17-38 | the loop yields exactly the lines |
| StringTokenizer.Power16 | Brigand/Utility/StringTokenizer.cs:70-72 | powers of 16 are positive |
| StringTokenizer.HexNumber | Brigand/Utility/StringTokenizer.cs:70-72 | the value of n hex digits is below 16^n |
| StringTokenizer.TryParseHex | Brigand/Utility/StringTokenizer.cs:70-72 | int.TryParse with AllowHexSpecifier succeeds exactly on a non-empty string of hex digits; two digits give a value below 256, four below 65,536 |
| StringTokenizer.ParseOctal | Brigand/Utility/StringTokenizer.cs:131-134 | Convert.ToInt32(_, 8) succeeds exactly on three octal digits, giving a value below 512, and throws FormatException otherwise |
| StringTokenizer.Step | Brigand/Utility/StringTokenizer.cs:27-158 | one step of the loop reads one character and advances at least one place, staying inside the string; anything but a backslash, and a backslash just before the closing character, stands for itself; only the octal branch can throw |
| StringTokenizer.PrependAssoc | Brigand/Utility/StringTokenizer.cs:23-161 | appending two pieces in turn is appending their concatenation |
| StringTokenizer.Unescape | Brigand/Utility/StringTokenizer.cs:27-158 | the switch computes exactly that step |
| StringTokenizer.MakeStringRaw | Brigand/Utility/StringTokenizer.cs:20-162 | the loop from position 1 to the last character but one gives exactly the decoding RawFrom describes, exception included |
| StringTokenizer.RawLength | Brigand/Utility/StringTokenizer.cs:20-162 | decoding never lengthens: the result has at most the characters between the quotes |
| StringTokenizer.RawPlain | Brigand/Utility/StringTokenizer.cs:157-158 | without backslashes the characters between the first and the last are copied as they are |
| StringTokenizer.StepIgnoresFirst | Brigand/Utility/StringTokenizer.cs:25 | a step never reads the first character |
| StringTokenizer.StepIgnoresLast | Brigand/Utility/StringTokenizer.cs:30-93 | a step reads the last character only as a hex digit |
| StringTokenizer.RawIgnoresFirst | Brigand/Utility/StringTokenizer.cs:25 | the opening character does not matter to MakeStringRaw |
| StringTokenizer.RawIgnoresLast | Brigand/Utility/StringTokenizer.cs:30-93 | the closing character does not matter to MakeStringRaw unless it is a hex digit |
| StringTokenizer.RawReadsLast | Brigand/Utility/StringTokenizer.cs:89-110 | "a\x41" decodes to "A": the \x escape reads the last character as its second digit |
| StringTokenizer.QuotedEnd | Brigand/Utility/StringTokenizer.cs:11 | a quoted match ends just after a closing quote |
| StringTokenizer.RunEnd | Brigand/Utility/StringTokenizer.cs:11 | an unquoted match runs to the first white space or the end |
| StringTokenizer.MatchEnd | Brigand/Utility/StringTokenizer.cs:11 | every match is non-empty and inside the text |
| StringTokenizer.ScanMatch | Brigand/Utility/StringTokenizer.cs:11-15 | the scan finds exactly the match the pattern takes at that position |
| StringTokenizer.Tokenize | Brigand/Utility/StringTokenizer.cs:13-18 | the tokens in order, each quoted match decoded by MakeStringRaw and every other match as it is, ending at the first exception |
| StringTokenizer.ExtendCons | Brigand/Utility/StringTokenizer.cs:15-17 | yielding one more token |
| StringTokenizer.Escaped | Brigand/Utility/StringTokenizer.cs:35-39 | escaping never shortens a string |
| StringTokenizer.EscapeChar | Brigand/Utility/StringTokenizer.cs:35-39 | a backslash or quote is written after a backslash, any other character as it is |
| StringTokenizer.EncodeAll | Brigand/Utility/StringTokenizer.cs:13-18 | one encoding per argument |
| StringTokenizer.QuotedEndEscapeChar | Brigand/Utility/StringTokenizer.cs:11 | the quoted pattern steps over an escaped character |
| StringTokenizer.QuotedEndEscaped | Brigand/Utility/StringTokenizer.cs:11 | an escaped string between quotes is matched up to its closing quote |
| StringTokenizer.StepEscapeChar | Brigand/Utility/StringTokenizer.cs:35-39 | decoding an escaped character gives it back |
| StringTokenizer.RawEscaped | Brigand/Utility/StringTokenizer.cs:20-162 | MakeStringRaw of a quoted escaped string gives the string back |
| StringTokenizer.RunEndPlain | Brigand/Utility/StringTokenizer.cs:11 | a plain argument followed by white space is matched whole |
| StringTokenizer.TokensEncoded | Brigand/Utility/StringTokenizer.cs:13-18 | an encoded argument followed by a space is tokenized back to the argument |
| StringTokenizer.TokenizeCommandLine | Brigand/Utility/StringTokenizer.cs:13-162 | tokenizing arguments joined by spaces, each quoted and escaped unless plain, gives exactly the arguments |
| Aliases.AliasName | Brigand/Modules/Aliases.cs:69 | the alias name is the text after the prefix up to its first space |
| Aliases.ParameterString | Brigand/Modules/Aliases.cs:70-75 | the parameters are the text after the first space, or "" when there is none |
| Aliases.ReplyTo | Brigand/Modules/Aliases.cs:28 | the reply goes to the channel the message went to, otherwise to the sender |
| Aliases.AliasOf | Brigand/Modules/Aliases.cs:58-78 | messages from the bot's own nickname (ignoring case) and lines not starting with the prefix followed by more are ignored; otherwise the call carries the alias name, the tokenized parameters and the reply target, or the tokenizer's exception |
| Aliases.AliasLine | Brigand/Modules/Aliases.cs:67-75 | prefix, name, space, parameters splits back into name and parameters |
| Aliases.AliasLineAlone | Brigand/Modules/Aliases.cs:67-75 | prefix and name alone give the name and no arguments |
| Aliases.AliasCallRoundTrip | Brigand/Modules/Aliases.cs:58-78 | a line made of prefix, name and an encoded argument list calls the alias with exactly those arguments |
| Security.Requested | Brigand/Modules/Security.cs:175 | the set built from a request holds exactly its strings |
| Security.HasPermissions | Brigand/Modules/Security.cs:163-177 | a user holding "*", or a request of just "*", is granted; otherwise an empty request or one of just an empty string is refused, and any other request is granted exactly when the user holds every requested permission |
| Security.HasPermissionsMonotone | Brigand/Modules/Security.cs:163-177 | granting a user more permissions never revokes a grant |
| Security.HasPermissionsOfSet | Brigand/Modules/Security.cs:175-176 | for requests of two or more strings only the set of strings matters, not order or repetition |
| Security.FirstMatch | Brigand/Modules/Security.cs:40-47 | no user is recognized exactly when no mask matches; otherwise the user is the first, in list order, whose mask matches |
| Security.RemoveNamedAt | Brigand/Modules/Security.cs:102 | removing the user at the first position with the name removes exactly that entry |
| Security.NotNamedUnchanged | Brigand/Modules/Security.cs:98-106 | removing a name nobody has changes nothing |
| Security.RemovePosition | Brigand/Modules/Security.cs:100-102 | the indexed user of a known name sits at the first list position with that name |
| Security.RemoveKeepsIndex | Brigand/Modules/Security.cs:100-104 | removing that entry from the list and the name from the index keeps them consistent |
| Security.RemoveNames | Brigand/Modules/Security.cs:102-103 | the names left are the old ones without the removed name |
| Security.Registry.constructor | Brigand/Modules/Security.cs:15-16 | a new registry has no users |
| Security.Registry.Get | Brigand/Modules/Security.cs:18-31 | the indexer gives null exactly for names no listed user has, and otherwise the listed user with that name |
| Security.Registry.Recognize | Brigand/Modules/Security.cs:33-48 | a null or empty NickUserHost is recognized as no one; otherwise the first user, in list order, whose mask matches |
| Security.Registry.Demand | Brigand/Modules/Security.cs:50-70 | an empty request throws ArgumentException; a request of just "?" passes; otherwise it throws SecurityException unless a user is recognized and holds the permissions |
| Security.DemandOf | Brigand/Modules/Security.cs:72-83 | a null user throws ArgumentNullException; a user passes exactly when they hold the permissions, and otherwise SecurityException is thrown |
| Security.Registry.AddUser | Brigand/Modules/Security.cs:85-96 | a known name throws and changes nothing; otherwise the user, with the set of its permissions, is appended to the list and indexed under its name, keeping names distinct and the index in step |
| Security.Registry.RemoveUser | Brigand/Modules/Security.cs:98-107 | returns true exactly when the name was known; the user leaves the list and the index, and the list shrinks by exactly one then |
| HashSetConverter.CanConvertFrom | Brigand/Config/HashSetConverter.cs:10-20 | conversion from string is always possible; other types get the base converter's answer |
| HashSetConverter.CanConvertTo | Brigand/Config/HashSetConverter.cs:22-32 | conversion to string is always possible; other types get the base converter's answer |
| HashSetConverter.ConvertFrom | Brigand/Config/HashSetConverter.cs:34-42 | a string becomes the set of its comma-separated pieces: never empty, none holding a comma |
| HashSetConverter.SetRoundTrip | Brigand/Config/HashSetConverter.cs:34-52 | joining a non-empty set of comma-free strings with commas and reading it back gives the same set |
| HashSetConverter.EmptySetComesBackNonEmpty | Brigand/Config/HashSetConverter.cs:34-52 | the empty set is written as "" and read back as {""} |
| HashSetConverter.TextRoundTrip | Brigand/Config/HashSetConverter.cs:34-52 | splitting a string at commas and joining the pieces gives the string back |
| TriviaReveal.CountAlnum | Trivia/Trivia.cs:352-356 | the number of letters and digits is at most the length |
| TriviaReveal.CanReveal | Trivia/Trivia.cs:347-358 | the loop answers true exactly when reveals are on and the hint count is below half the answer's letters and digits |
| TriviaReveal.RevealWindow | Trivia/Trivia.cs:347-358 | once a hint count stops reveals, every later one does too, and no count of half the answer's length or more allows one |
| TriviaReveal.Lengths | Trivia/Trivia.cs:373 | the lengths of the words, in order |
| TriviaReveal.SumIncrement | Trivia/Trivia.cs:375-376 | showing one more character of a word raises the total shown by one |
| TriviaReveal.SumBounded | Trivia/Trivia.cs:373 | counts bounded word by word are bounded in total |
| TriviaReveal.NonSpace | Trivia/Trivia.cs:364 | the number of characters that are not spaces is at most the length |
| TriviaReveal.NonSpaceConcat | Trivia/Trivia.cs:364 | counting non-spaces distributes over concatenation |
| TriviaReveal.NonSpaceFree | Trivia/Trivia.cs:364 | a word without spaces is all non-space |
| TriviaReveal.LengthsCons | Trivia/Trivia.cs:364 | the lengths of one more word |
| TriviaReveal.NonSpaceAtSpace | Trivia/Trivia.cs:364 | a space splits the count of non-spaces |
| TriviaReveal.SplitLengths | Trivia/Trivia.cs:364 | the words Split(' ') gives hold, together, exactly the answer's non-space characters |
| TriviaReveal.Mask | Trivia/Trivia.cs:389-400 | a masked word keeps its length, shows its first r characters and has '_' for the rest |
| TriviaReveal.Masked | Trivia/Trivia.cs:387-402 | each word masked by its own count |
| TriviaReveal.TrailingJoin | Trivia/Trivia.cs:401-403 | appending a space after each word and dropping the last is joining with spaces |
| TriviaReveal.MaskedShape | Trivia/Trivia.cs:387-404 | the reveal has the answer's length, spaces exactly where the answer has them, and every other character either the answer's or '_' |
| TriviaReveal.Back | Trivia/Trivia.cs:372 | the word a cursor stands on |
| TriviaReveal.RevealCounts | Trivia/Trivia.cs:365-385 | the round-robin loop shows at most each word's length and, in total, hint - 1 characters, or all of them when there are fewer; the characters go to the words in turn from the first, so each word shows the lesser of its length and its chances, the words before some cut having had one chance more than the rest |
| TriviaReveal.ZeroSum | Trivia/Trivia.cs:365 | a fresh count array shows nothing |
| TriviaReveal.MaskWord | Trivia/Trivia.cs:389-400 | the inner loop appends exactly the masked word |
| TriviaReveal.Render | Trivia/Trivia.cs:387-404 | the rendering loop gives the masked words joined by single spaces |
| TriviaReveal.GetAnswerReveal | Trivia/Trivia.cs:360-405 | the reveal masks the trimmed answer's words, hides only letters, keeps the spaces, and shows in total hint - 1 characters or all of them when there are fewer, handed out to the words in turn from the first |
| TriviaGame.ConfigFault | Trivia/Trivia.cs:82-89 | OnInit throws InvalidOperationException exactly when the provider type is missing or the threshold, expiry or game length is below 1 |
| TriviaGame.TopScoreBounds | Trivia/Trivia.cs:238-250 | the top score is at least every player's score and, when positive, some player's |
| TriviaGame.LeadersMembers | Trivia/Trivia.cs:238-250 | the leaders for a score are exactly the players with that score |
| TriviaGame.NoLeadersAbove | Trivia/Trivia.cs:240-245 | nobody leads at a score above everyone's |
| TriviaGame.SelectWinners | Trivia/Trivia.cs:228-251 | the loop over the scores ends with the top score and, in order, exactly the players who reached it |
| TriviaGame.WinnersOutscoreEveryone | Trivia/Trivia.cs:228-251 | the winners are exactly the players nobody outscores, and there is one whenever anyone scored |
| TriviaGame.Advance | Trivia/Trivia.cs:182-196 | moving on numbers the next question, asks it after BeforeQuestionDelay and resets the hints, keeping the scores |
| TriviaGame.NextGamesShape | Trivia/Trivia.cs:182-201 | after TriviaNextQuestion the game remains exactly while questions are left, asking the next one with no hints given and the scores kept; other channels' games are untouched |
| TriviaGame.NextGamesReplaced | Trivia/Trivia.cs:182-201 | what TriviaNextQuestion leaves does not depend on the game entry it overwrites |
| TriviaGame.Scored | Trivia/Trivia.cs:213-215 | a correct guess adds the guesser at 0 when new and raises their score by one, nobody else's |
| TriviaGame.ScoredValid | Trivia/Trivia.cs:213-215 | scoring keeps a game valid: distinct players, every score at least 1 |
| TriviaGame.RequestsSet | Trivia/Trivia.cs:100-131 | setting a channel's requests, with its timer present exactly while some are pending, keeps the requests valid |
| TriviaGame.GamesSet | Trivia/Trivia.cs:139-333 | adding a valid game or removing one keeps every game valid |
| TriviaGame.Trivia.constructor | Trivia/Trivia.cs:78-90 | a module that passed OnInit's checks has no requests, timers or games |
| TriviaGame.Trivia.TriviaRequest | Trivia/Trivia.cs:92-134 | a handled, unrelated, non-channel, running-game or repeated request changes nothing; a new requester below the threshold is recorded, announced (with "one more" when one is missing) and the expiry timer set; reaching the threshold clears the requests, drops the timer and starts the game, except that with a threshold of 1 there is no timer yet and the lookup throws KeyNotFoundException |
| TriviaGame.Trivia.Launch | Trivia/Trivia.cs:107-114 | reaching the threshold says the start line, clears the requests and starts the game, or throws when no timer is registered |
| TriviaGame.Trivia.Wait | Trivia/Trivia.cs:115-131 | below the threshold the request is recorded, announced and a timer kept |
| TriviaGame.Trivia.TriviaStart | Trivia/Trivia.cs:136-144 | a new game is added, asking in BeforeQuestionDelay seconds, and announced |
| TriviaGame.Trivia.RequestExpire | Trivia/Trivia.cs:124-129 | the expiry timer says so, clears the requests and drops itself |
| TriviaGame.Trivia.TriviaGameOver | Trivia/Trivia.cs:220-334 | the game ends with its finale (no winner, the tie or the winner, then game over) and is removed |
| TriviaGame.Trivia.TriviaNextQuestion | Trivia/Trivia.cs:182-201 | with questions left the game advances and the next question is announced; after the last one the game is over |
| TriviaGame.Trivia.Ask | Trivia/Trivia.cs:152-158 | asking says the question number and text and waits AfterQuestionDelay for the answer |
| TriviaGame.HintReveal | Trivia/Trivia.cs:166-168 | the reveal is given exactly when CanReveal allowed it, and is then GetAnswerReveal's result for the hint count: the trimmed words masked by counts handed out in turn, hint - 1 characters in all or every one when there are fewer |
| TriviaGame.Trivia.GiveHint | Trivia/Trivia.cs:162-169 | a hint says the provider's hint when the provider has hints at this tick and then the reveal given, raises the hint count and waits AfterHintDelay; no other game changes |
| TriviaGame.Trivia.HintTick | Trivia/Trivia.cs:159-169 | a tick that gives a hint: the game as GiveHint leaves it, and the reveal, given exactly when CanReveal allows, is GetAnswerReveal of the primary answer with the raised hint count (IsReveal) |
| TriviaGame.Trivia.Announce | Trivia/Trivia.cs:173 | saying a line and updating a game keep the module valid |
| TriviaGame.Trivia.Expire | Trivia/Trivia.cs:171-175 | an expired question says the answer and moves on |
| TriviaGame.Trivia.TriviaLoop | Trivia/Trivia.cs:146-180 | the timer asks a waiting question, gives a hint or a reveal while the raised hint count is within MaxNumberOfHints and the provider, asked at this tick, has a hint or a reveal is allowed, and otherwise expires the question and moves on or ends the game; each branch states every game and every line said, so other channels' games are unchanged, and a reveal is GetAnswerReveal of the answer with the raised hint count (IsReveal) |
| TriviaGame.Trivia.Tick | Trivia/Trivia.cs:159-175 | for an asked question: the hint count rises by one with a hint and a reveal (GetAnswerReveal with the raised count) and AfterHintDelay, or the question expires with its answer and TriviaNextQuestion follows |
| TriviaGame.Trivia.Score | Trivia/Trivia.cs:212-216 | a correct answer is announced, scored and the game moves on |
| TriviaGame.Trivia.TriviaGuess | Trivia/Trivia.cs:203-218 | anything but a correct guess in a channel with an asked question changes nothing; a correct guess is announced, scores one point for the guesser alone, and TriviaNextQuestion's games and lines follow, other channels' games unchanged |

## Left out

- **Character classes.** `char.IsLetterOrDigit`, `char.IsWhiteSpace` and `char.IsNumber` are modelled on ASCII. Other Unicode letters, digits and spaces are not modelled.
- **Case mapping.** `Chars.Upper` and `Chars.Lower` map case by ASCII rules, whatever the current culture. They stand in for these calls:
  - the invariant `ToUpperInvariant` of the IRC command (Brigand/Net/IrcMessage.cs:29);
  - the culture-sensitive `string.ToUpper()` of the chatter parser and formatter (Brigand/Chatter/StringParser.cs:31, 49, 77);
  - `string.ToLower()` (Brigand/Chatter/StringParser.cs:76, 83; Trivia/Trivia.cs:210);
  - the ignore-case `string.Compare(a, b, true)` of the alias handler (Brigand/Modules/Aliases.cs:60).
  Culture-specific mappings are not modelled. For example, under the Turkish culture `"quit".ToUpper()` is "QUİT", with a dotted capital I, where the model gives "QUIT". Non-ASCII letters keep their case.
- **Strings.** Strings are sequences of Unicode scalar values, not of UTF-16 code units.
  - Lengths and indices count a character outside the Basic Multilingual Plane once, where the source counts two code units. This affects Say's MaxTextLength split, Parse's 512-character window and WordBreak's lineLength. The source can split a surrogate pair; the model cannot.
  - A `\u` escape of a surrogate code unit, even half of a valid pair such as `\uD83D\uDE00`, decodes to U+FFFD.
- **StringTokenizer.Step:** a `\u` escape of a surrogate code unit gives U+FFFD where the source appends the code unit (see Strings).
- **Binary strings.** `BinaryWriter.Write(string)` is modelled as a 7-bit-encoded character count followed by a fixed-width code per character. UTF-8 byte lengths are not modelled.
- **Random numbers.** `Random.Next(n)` is a draw parameter: the k-th draw modulo n. The reply's draws are a function from the draw index to a number.
- **Tries as values.** The tries are values: a node is its token and the sequence of its children.
  - Pointers, `Memory.Alloc`/`Memory.Free`, `Free` and the finalizer are not modelled.
  - Memory.cs is not part of this model.
  - Aliasing between nodes is not modelled: the source never shares a node.
- **Trie.Branch.** The ushort branch count is written modulo 65,536. The read-back lemmas require fewer than 65,536 children per node.
- **Trie.AddNode:** the in-memory wrap of the ushort `branch++` (Chatter/Node.cs:113) is not modelled. In the source, a node's 65,536th child sets `branch` to 0. From then on Search, Find, Count, CountBytes and Write see none of its children, and Write emits a count of 0 and nothing after it. The model keeps and counts all 65,536 children, and its `Write` emits the count 0 followed by every child. `Trie.FindOrAdd` therefore always grows by one. This needs a node holding every token id the table can hand out.
- **IrcClient.Irc.ProcessMessage:** the NICK, JOIN, PART, TOPIC, INVITE, KICK, PRIVMSG and NOTICE event handlers are not modelled. Neither are the ArgumentOutOfRange faults of the parameters those handlers' arguments read (for instance `msg.Parameters[0]` of JOIN or `msg.Parameters[1]` of PRIVMSG) when a handler is subscribed. The target parse of KICK, PRIVMSG and NOTICE, which happens with or without a handler, is modelled.
- **Null strings.** Strings are never null, except where the model uses `Option` (prefixes, parameters, nicknames, `IrcPrefix.Parse`, the parser's input, `Recognize` and `Demand`). The null-reference exceptions of `IrcTarget.Parse(null)`, `IrcMessage.Parse(null)`, `Say` with a null text, and null permission strings in `HasPermissions` are not modelled.
- **Wrap-around not modelled.** `int` overflow of the statistics counters, and of the reveal arithmetic, is not modelled.
- **I/O.**
  - File streams are byte sequences. `Save` returns bytes and `Load` takes them.
  - Opening and closing files, and their failures, are not modelled.
- **Timers.** Timers are a pending delay in seconds, per game and per request channel. Their firing is a call of the method the timer would run.
- **Network and events.** Sending is appending to `Irc.queue` or to `Trivia.said`. Event handlers are the values they would be passed.
- **Other client parts.** IrcConnection, Bot, BotModule and the other IRC commands' event arguments (JOIN, PART, TOPIC, INVITE, KICK, PRIVMSG, NOTICE) are not part of this model.
- **ChatterModel.Model.Learn:** requires the terminator to be interned already.
  - The source looks it up with the dictionary indexer, which would throw.
  - Its callers meet this: the parser always ends with the terminator, and interning happens before learning.
- **ChatterModel.Model.Load:** the model is valid only when the loaded tries are sorted and hold ids of the table. The source does not check a file's contents.
- **Chatter/Model.cs.** This earlier revision has the same Learn, Reply, Save and Load. Only its Query with the "I understand: " rule (`QueryEcho`, `HasReply`, `Prefixed`) is modelled separately. Its inline Node is Chatter/Node.cs.
- **Chatter/SymbolDictionary.cs.** It matches Brigand/Chatter/SymbolDictionary.cs and is modelled by the same class.
- **SymbolTable.SymbolDictionary.AddSymbols:** this is the interning loop `symbols.Select(s => _dict.AddSymbol(s))` of Model.Learn and Model.Query. It is placed in the dictionary class.
- **Security masks.** `Regex.IsMatch(peer, "^" + mask + "$")` is a `matches` parameter. Regular expressions are not modelled. A mask that is not a valid regular expression makes `Regex.IsMatch` throw ArgumentException inside Recognize and Demand (Brigand/Modules/Security.cs:42). The total `matches` parameter cannot express that throw.
- **Security configuration.** `LoadConfig` and `SaveConfig` (XML configuration) are not modelled.
- **Aliases input.** The `IrcMessageEventArgs` of the Floe library is not part of this model. The alias handler takes the sender prefix, the target and the text.
- **Aliases.OnInit:** the empty-prefix check is not modelled.
- **StringTokenizer.Tokenize.** The tokenizer's regular expression is modelled as the scan it performs:
  - a quoted run with backslash escapes;
  - otherwise a run of non-white-space.
  Lazy `IEnumerable` results are finite sequences. So are those of `WordBreak`.
- **StringTokenizer.RawIgnoresLast:** holds only for closing characters that are not hex digits. A `\x` or `\u` escape near the end reads the closing character as a digit (`RawReadsLast`).
- **Configuration converter.** `HashSet` enumeration order is not modelled. The converter's `ConvertTo` takes the set's elements as a sequence in any order.
- **Trivia provider.** `ITriviaProvider` is not modelled:
  - the question text, the answer, the hints and the answer check are parameters;
  - `HasHints` is a parameter of every `TriviaLoop` call, since the provider answers it anew on each tick;
  - `CreateProvider`'s reflection and its failures are left out.
- **TriviaGame.Trivia.TriviaGameOver:** it says no winner, the tie or the winner, and game over. The "First/Second/Third Loser" lines for the runners-up (Trivia/Trivia.cs:280-328) are not modelled.
- **Trivia messages.** Messages are `Announcement` values. The format strings are not modelled.
- **Trivia scores.** The score dictionary's enumeration order is modelled as the order players first scored.
- **Trivia handlers.** Re-subscribing `TriviaGuess` to the message event on each start is not modelled.
- **TriviaGame.Trivia.constructor:** requires OnInit's checks to pass. `ConfigFault` states when they throw.

## Findings

| source | as written | input that shows it | evidently intended | confidence | as-written member | corrected member |
|---|---|---|---|---|---|---|
| Brigand/Rss/StringExtensions.cs:21-31 | when no split character is among the first lineLength characters, the scan ends at i = -1; only i == 0 is replaced by lineLength - 1, so `Substring(0, 0)` is yielded and `input` never shrinks | `"abcdef".WordBreak(3)` yields "" forever | a line with no split character is cut at lineLength, as `Irc.Say` does (`if (i < 0)`) | not executed | WordBreaking.SplitIndexAsWritten, WordBreaking.WordBreakStalls, WordBreaking.WordBreakStallsOnExample | WordBreaking.LineLength, WordBreaking.WordBreak, WordBreaking.LinesConcat, WordBreaking.LinesBounded |
