# A verified model of Nisse and its documentation search

The repository holds a small C++ web server, Nisse, and the search index (lunr 0.5.7) that its documentation
uses. This project models the parts of both that carry state from one call to the next, in the form the
code has: objects with fields that methods change, loops with cursors, tries and lists on the heap. Every
method is tied to a function of the old state, and what the code is for is then proved about those
functions, for every input and every run.

| file | what it models |
|---|---|
| `Strings.dfy` | strings as both languages see them: three-way comparison and `find` |
| `SortedSet.dfy`, `Vector.dfy`, `TokenStore.dfy` | lunr's sorted array, linked sparse vector and character trie |
| `IndexModel.dfy`, `Index.dfy` | the inverted index as a value with its runs, and lunr's `Index` and `Store` over the heap |
| `QueryVector.dfy`, `Score.dfy` | the vector that `search` builds for a query, when its dot products are right, and what they mean |
| `Route.dfy`, `RouteMap.dfy` | routes, their comparison with request paths, and the route table of a site |
| `SiteModel.dfy`, `SiteLoader.dfy` | sites, calls and dynamically loaded libraries: the runs, and the objects |
| `SimpleProtocol.dfy` | the framed echo protocol over a socket that delivers arbitrary pieces |
| `EventModel.dfy`, `EventLoop.dfy` | the life of event handlers: the runs, and the server's objects |
| `Uri.dfy`, `HeaderStore.dfy`, `HeaderScanner.dfy` | request targets, headers and the parser callbacks that collect them |

`dafny verify dfyconfig.toml` checks everything.

## What is assumed

* lunr's tokenizer and pipeline are given functions; `add` and `search` receive what they yield. They yield no
  empty token: the stop word list (docs/javascripts/all.js:78) contains the empty string. Values are exact
  reals, and the logarithm behind `idf` is a parameter.
* What `dlopen` and the entry points of a library come to is a parameter of `load`. A library's routes lead
  to its own code. `listenOn` succeeds. A call is running from the moment its action is found until it returns.
* A socket delivers and accepts any pieces, says that there is no more only when that is so, and then keeps to it.
  Sizes are eight bytes, lowest byte first, and a string holds less than 2^63 characters.
* libevent arms, fires and disarms events as documented. The code of a handler is a parameter; after it has
  dropped or replaced its handler, `eventActivate` answers 0. An activation that also adds other handlers is
  two steps in a row.
* Results of `compare` on strings are used only for their sign, as the C++ code does.

## Where the code falls short of its promise

Each of these is proved here, with an input that shows it or the exact condition under which the code is right,
mostly with both.

* Adding a stored document again leaves its old tokens in the trie (`IndexModel.StaleTokenAfterSecondAdd`).
  `IndexModel.Lost` follows these through a run; trie and store agree after a run exactly when nothing is lost
  (`IndexModel.RunKeepsInvariantExactly`), and `search` agrees with a scan exactly when each lost token is a
  prefix of a token its document still has (`IndexModel.RunSearchIsScanExactly`). For one addition the conditions
  are `IndexModel.AddKeepsInvariantExactly` and `IndexModel.SecondAddSearchesRightExactly`.
* When such a document is removed, its old tokens still lead to it, and `search` throws on the missing document
  (`IndexModel.SearchThrowsAfterRemoval`). It throws exactly when all query tokens lead to lost postings of one
  removed reference (`IndexModel.RunSearchThrowsExactly`).
* `Vector.insert` never compares with the head and inserts an index it already has once more, and `dot` then
  misses shared indices: after insertions in falling order (`Vectors.DotMissesAfterFallingInsertions`) and after
  two insertions of one index (`Vectors.DotMissesAfterRepeatedInsertion`). For positive values, as weights are with
  positive boosts, all dot products are right exactly when every insertion after the first brings a new index above
  the first one (`Vectors.BuiltDotsRightExactly`). A document's vector is always built so. The query vector of
  `search` is built from the tokens that the query tokens expand to, in turn, and the dot products behind the
  scores are right exactly when the first of these tokens comes before all others and none comes twice
  (`QueryVectors.QueryDotsRightExactly`). A query of one token that some document has is always right
  (`QueryVectors.OneLiveTokenIsRight`); one in which two tokens expand to a common token never is
  (`QueryVectors.CommonWordIsWrong`).
* A registered route that is a prefix of a request path can hide the route of that path
  (`RouteMaps.PrefixHidesRoute`: "/a" hides "/a-b"). In a given tree the path is found exactly when no such
  route lies on the way of the lookup (`RouteMaps.LookupFindsInTreeExactly`); whatever is found matches the
  path. With names in the routes a matching route is found exactly when, at each route on the way to it, the
  comparison with the path turns to its side (`RouteMaps.RouteFoundInTreeExactly`, `RouteMaps.RouteFoundExactly`).
* A second base on the same port and host resets the count of running calls, and a library can be closed
  under a running call (`SiteModel.SecondBaseClosesRunningLibrary`, from a state reached by loading, calling and
  unloading: `SiteModel.WaitingIsReached`). A load keeps the counts right exactly when no call is running on its
  port and host (`SiteModel.LoadIsSafeExactly`), and by the same condition everything that can follow the load
  closes libraries only unused (`SiteModel.LoadClosesSafelyExactly`). With one base per port and host it holds.
* A handler that starts to wait while one of its events is armed can be destroyed before it is resumed
  (`EventModel.ArmedWaiterIsDestroyed`); `resume` arms both events, so this is reached by waiting twice. A wait
  is safe exactly when no event of the waiting handler is armed (`EventModel.TransferKeepsInvExactly`).
* A query part without '=' before another part gives its last character to the value (`Uris.PartWithoutEquals`;
  `Uris.FirstParamExactly` says what is stored in every case). A key is stored whole exactly when its part has a
  '=' or is the last one (`Uris.KeyIsWholeExactly`); a value begins with '=' exactly when its part has one
  (`Uris.ValueHasEqualsExactly`). An empty part that is not the last one takes in what follows it
  (`Uris.RebuiltExactly`).
* The port of a request is narrowed to a `short`: "h:40000" is stored with port -25536
  (`Uris.LargePortTurnsNegative`). Host and decimal port come back exactly when the port is below 32768
  (`Uris.AuthorityRoundTripExactly`).
* A size object above the largest string makes `resize` throw out of the event callback, and the peer gets no
  answer. This is so exactly when all bytes of the size object come and the highest is 128 or more
  (`SimpleProtocol.NoReplyExactly`).
* A header without a value callback gives its name to the next header (`HeaderScanner.NameWithoutValueIsGlued`);
  the headers are stored as they came exactly when each has a value callback (`HeaderScanner.StoredExactly`).
  Whether an empty value is reported by a callback with no text or by none depends on the parser, `http_parser`,
  which is not part of this model.

Where comments and code differ, the model follows the code. src/Express/HTTP/Route.h:22 lets a route have as
many pieces as names; the constructor always makes one piece more. src/Core/Service/Handler.tpp:31-38
describes `moveHandler` as suspending the current handler; the code drops it.

## Model

| member | source | states |
|---|---|---|
| Strings.LessIsLexicographic | docs/javascripts/all.js:61 | strings are ordered by the first character in which they differ, a proper prefix coming first |
| SortedSets.IndexOfFinds | docs/javascripts/all.js:61 | on a sorted array `indexOf` ends, by halving its window, at the element if it is there, and finds nothing otherwise |
| SortedSets.LocationFor | docs/javascripts/all.js:61 | `locationFor` answers the position that splits the sorted array into smaller and larger elements, and `undefined` for a missing element only on the empty array |
| SortedSets.InsertedKeepsOrder | docs/javascripts/all.js:61 | one round of `add` keeps the array strictly increasing and adds exactly that element |
| SortedSets.SortedIsUnique | docs/javascripts/all.js:61 | the array is determined by the set it stands for, so the contents below fix it completely |
| SortedSets.SortedSet.Add | docs/javascripts/all.js:61 | the set grows by exactly the arguments, in any order and with duplicates |
| SortedSets.SortedSet.Intersect | docs/javascripts/all.js:61 | the walk with two cursors yields the mathematical intersection, in a new set |
| SortedSets.SortedSet.Union | docs/javascripts/all.js:61 | cloning the longer set and adding the other yields the mathematical union |
| Vectors.Vector.Insert | docs/javascripts/all.js:57 | relinking puts the entry behind the head, before the first later entry with a larger index, and loses no node |
| Vectors.InsertIsPermutation | docs/javascripts/all.js:57 | insertion keeps all entries and adds one, in whatever order the list was |
| Vectors.InsertKeepsIncreasingExactly | docs/javascripts/all.js:57 | a strictly increasing list stays so if and only if it is empty or the new index is above its head and not in it yet |
| Vectors.BuiltIsIncreasingExactly | docs/javascripts/all.js:57 | any insertions build a strictly increasing list if and only if every one after the first brings a new index above the first |
| Vectors.Vector.Dot | docs/javascripts/all.js:57 | the loop with two cursors adds up the merge of the two lists |
| Vectors.MergeIsProduct | docs/javascripts/all.js:57 | on increasing lists that merge is the sum of products over shared indices |
| Vectors.DotIsProductExactly | docs/javascripts/all.js:57 | for positive values `dot` is right with every increasing list if and only if the indices strictly increase |
| Vectors.BuiltDotsRightExactly | docs/javascripts/all.js:57 | the same condition on the insertions that built the vector |
| Vectors.DotMissesAfterFallingInsertions | docs/javascripts/all.js:57 | after two insertions in falling order `dot` misses a shared index |
| Vectors.DotMissesAfterRepeatedInsertion | docs/javascripts/all.js:57 | after two insertions of one index `dot` counts only one of them, though the list is ordered |
| TokenStores.TokenStore.Add | docs/javascripts/all.js:87 | of the map from (token, reference) to posting exactly one entry changes, and exactly the nodes on the way to the token appear; the empty token goes under the key "undefined", where no token finds it; every addition is counted |
| TokenStores.TokenStore.Has | docs/javascripts/all.js:87 | `has` holds exactly for the non-empty paths of the trie |
| TokenStores.TokenStore.Get | docs/javascripts/all.js:87 | `get` answers exactly the postings of the token, by reference |
| TokenStores.TokenStore.Count | docs/javascripts/all.js:87 | `count` is the number of references under the token |
| TokenStores.TokenStore.Remove | docs/javascripts/all.js:87 | exactly the named pair goes; an unknown token or reference changes nothing |
| TokenStores.TokenStore.Expand | docs/javascripts/all.js:87 | the tokens with the prefix that still have a document are pushed once each, behind what was there |
| Indexes.Store.Set | docs/javascripts/all.js:69 | the token list of one reference is replaced; the length goes up unless the name was there or is inherited |
| Indexes.Store.Remove | docs/javascripts/all.js:69 | the token list of one reference goes; the length goes down also for an inherited name that was never stored |
| Indexes.Index.Add | docs/javascripts/all.js:65 | trie, corpus and store change as the index value does: the document's tokens and their boosted frequencies come in under its reference |
| Indexes.Index.Remove | docs/javascripts/all.js:65 | exactly the postings of the stored tokens of the reference go; the call fails exactly on an inherited name that was never stored |
| Indexes.Index.Update | docs/javascripts/all.js:65 | removal and addition in one step, or the failure of the removal |
| Indexes.Index.Search | docs/javascripts/all.js:65 | it throws exactly when some reference that every query token hits has no document vector; else the answer lists once each the references that every query token hits, none for the empty query, and exactly those a scan finds while trie and store agree; for each it has the dot product of the document's vector with the vector of the query's expansions |
| QueryVectors.QueryDotsRightExactly | docs/javascripts/all.js:65 | with positive weights every dot product with the vector of a query is right if and only if the first expanded token comes before all others and none comes twice |
| QueryVectors.OneLiveTokenIsRight | docs/javascripts/all.js:65 | the expansion of one token that some document has meets that condition |
| QueryVectors.CommonWordIsWrong | docs/javascripts/all.js:65 | a query in which two tokens expand to a common token does not |
| Scores.DotsAreScores | docs/javascripts/all.js:65 | when that condition holds, each dot product of a search is the sum, over all tokens the query expands to, of `Scores.TokenScore` for the frequency the document has of the token |
| Scores.TokenScoreIs | docs/javascripts/all.js:65 | which is weight in the query times term frequency times inverse document frequency |
| Vectors.ProductOfBuilt | docs/javascripts/all.js:57 | the mathematical dot product does not depend on the order of insertions |
| Indexes.Index.Matching | docs/javascripts/all.js:65 | for one query token, the references under any token it is a prefix of |
| Indexes.Index.DocumentVector | docs/javascripts/all.js:65 | for every stored document, one entry per token in order, at its corpus position with its weight, in strictly increasing positions; without a stored document it throws, or gives an empty vector for an inherited function without parameters |
| Indexes.VectorIncreases | docs/javascripts/all.js:65 | sorted tokens sit at increasing corpus positions |
| Indexes.Index.Perform | docs/javascripts/all.js:65 | any additions, removals and updates on a new index object end in the value that the run model gives |
| IndexModel.TfOfField | docs/javascripts/all.js:65 | in one field the term frequency is the number of occurrences over the number of tokens, times the boost; a field without tokens gives nothing |
| IndexModel.TfOfConcat | docs/javascripts/all.js:65 | the frequencies of the fields, each with its boost, add up |
| IndexModel.TokensOfFields | docs/javascripts/all.js:65 | the tokens of a document are those of its fields |
| IndexModel.RunMeasures | docs/javascripts/all.js:65 | after every run the posting of each token of a stored document holds its frequency in the version that is stored, which a plain reading of the operations gives |
| IndexModel.IntersectionIsSearch | docs/javascripts/all.js:65 | intersecting the hits of the query tokens from left to right leaves the references all of them hit |
| IndexModel.AddKeepsInvariantExactly | docs/javascripts/all.js:65 | `add` keeps trie and store in agreement if and only if the reference is fresh or no stored token is missing from the new version |
| IndexModel.RemoveKeepsInvariant | docs/javascripts/all.js:65 | `remove` keeps the agreement and takes every posting of the reference out |
| IndexModel.UpdateKeepsInvariant | docs/javascripts/all.js:65 | `update` keeps the agreement for every document |
| IndexModel.SearchIsScan | docs/javascripts/all.js:65 | with the agreement, a query of tokens throws nothing and finds exactly the documents that contain, for each query token, a token it is a prefix of |
| IndexModel.SecondAddSearchesRightExactly | docs/javascripts/all.js:65 | after adding a stored reference again all searches agree with the scan if and only if each old token is a prefix of a new one |
| IndexModel.StaleTokenAfterSecondAdd | docs/javascripts/all.js:65 | a concrete second `add` after which `search` finds a document by a token it no longer has |
| IndexModel.RunIsListed | docs/javascripts/all.js:65 | in every run, every token a stored document lists has its posting and is in the corpus |
| IndexModel.RunAccounts | docs/javascripts/all.js:65 | after every run the trie holds exactly the postings of the stored documents and the lost ones, which a plain reading of the operations gives |
| IndexModel.RunKeepsInvariantExactly | docs/javascripts/all.js:65 | trie and store agree after a run if and only if it has lost nothing |
| IndexModel.RunKeepsInvariant | docs/javascripts/all.js:65 | after every run of additions that lose no token, removals and updates the agreement holds and the store is what the operations say |
| IndexModel.RunSearchIsScanExactly | docs/javascripts/all.js:65 | after a run all searches answer what a scan of the documents answers if and only if each lost token is a prefix of a token its document has |
| IndexModel.RunSearchThrowsExactly | docs/javascripts/all.js:65 | after a run a search throws if and only if all its query tokens lead to lost postings of one removed reference |
| IndexModel.SearchThrowsAfterRemoval | docs/javascripts/all.js:65 | after adding a document, adding it again without its token and removing it, searching the token throws |
| IndexModel.RunSearchIsScan | docs/javascripts/all.js:65 | after every run whose additions lose no token, `search` does not throw and answers what a scan of the documents answers |
| Routes.Route.Split | src/Express/HTTP/Route.cpp:5-22 | the loop of the constructor builds the pieces and names the text denotes, or throws where the text is no route |
| Routes.ParseThenPrint | src/Express/HTTP/Route.cpp:5-22 | on success there is one piece more than names, and pieces and names in turn print back to the text |
| Routes.PrintThenParse | src/Express/HTTP/Route.cpp:5-22 | the printed form of any well-formed pieces and names is parsed back to them |
| Routes.ParseSucceedsExactly | src/Express/HTTP/Route.cpp:5-22 | the constructor succeeds exactly on the printed forms |
| Routes.BuiltIsJoined | src/Express/HTTP/Route.cpp:5-22 | a built route that is not empty has no empty piece, and its pieces meet names at slashes |
| Routes.ParseFailsExactly | src/Express/HTTP/Route.cpp:5-22 | the constructor throws "Invalid Route" exactly where a colon does not follow a '/', and `substr` throws exactly where nothing follows a name, each behind a well-formed beginning |
| Routes.Route.LessThan | src/Express/HTTP/Route.cpp:24-37 | `operator<` is the lexicographic order of piece lists |
| Routes.RouteLessIsTotalOrder | src/Express/HTTP/Route.cpp:24-37 | that order is strict and total; its ties are the equal lists |
| Routes.RouteLessIsLexicographic | src/Express/HTTP/Route.cpp:24-37 | a route is smaller exactly when it is a proper beginning of the other, or the first piece that differs is smaller |
| Routes.Route.Compare | src/Express/HTTP/Route.cpp:57-97 | the loop over pieces with a moving offset answers the comparison read from the front of the path |
| Routes.CompareIsMatch | src/Express/HTTP/Route.cpp:57-97 | the answer is 0 exactly when the path is piece, segment, piece, ... (one more segment after a last piece that ends in '/'), and the segments are unique |
| Routes.CompareIsBelowExactly | src/Express/HTTP/Route.cpp:57-97 | the answer is negative exactly when, after some pieces and segments, there is a path left but no piece, the next piece is smaller, or the path ends where a name should follow |
| Routes.EqualMatches | src/Express/HTTP/Route.cpp:57-97 | the segments of an equal path are the ones the walk passes over |
| RouteMaps.EmplaceKeepsFirst | src/Express/HTTP/Binder.cpp:34-39 | registering a route keeps the table sorted, and the first registration of a route stays |
| RouteMaps.Find | src/Express/HTTP/Route.h:74-81 | in any table, with named segments too, what lookup answers is registered under a route that compares equal to the path |
| RouteMaps.LiteralLookup | src/Express/HTTP/Route.h:74-81 | with literal routes and passing prefixes, lookup answers the registration of the path or nothing, whatever the shape of the tree |
| RouteMaps.PrefixPassesExactly | src/Express/HTTP/Route.cpp:57-97 | a registered proper prefix does not stand in the way exactly when it ends in '/' and leaves more than one segment |
| RouteMaps.RouteFoundInTreeExactly | src/Express/HTTP/Route.h:74-81 | whatever names the routes have, a route that compares equal to the path is found in a given tree if and only if, at every route on the way to it, the comparison with the path turns to its side |
| RouteMaps.RouteFoundExactly | src/Express/HTTP/Route.h:74-81 | it is found in every search tree of the registrations if and only if all smaller routes compare below the path and no larger one does |
| RouteMaps.LookupFindsInTreeExactly | src/Express/HTTP/Binder.cpp:54-62 | with literal routes, a registered path is found in a given tree, balanced or not, if and only if no route the lookup meets on its way blocks it |
| RouteMaps.LookupFindsExactly | src/Express/HTTP/Binder.cpp:54-62 | a registered literal path is found in every search tree of its registrations if and only if every registered proper prefix of it is of that kind; the tree that shows "only if" need not be balanced |
| RouteMaps.PrefixHidesRoute | src/Express/HTTP/Binder.cpp:54-62 | with "/a" and "/a-b" registered, the path "/a-b" is not found |
| SiteLoaders.Site.Swap | src/Express/HTTP/Binder.cpp:22-27 | routes and count of the two sites change places |
| SiteLoaders.Site.Add | src/Express/HTTP/Binder.cpp:34-39 | the text is built into a route; one table, kept in order, gains it unless it has it, the route of the empty path included; nothing changes when building throws; the other tables and the count stay |
| SiteLoaders.Site.AddFor | src/Express/HTTP/Binder.cpp:29-39 | `get`, `put`, `post` and `del` register in the table of their method |
| SiteLoaders.Site.AddForAll | src/Express/HTTP/Binder.h:60 | `all` registers in the table for all methods |
| SiteModel.RegisteredIsFoundExactly | src/Express/HTTP/Binder.cpp:48-64 | in a plain site a new registration for a method is found by requests of that method, for GET also by HEAD, and by no others; one for all methods by all |
| SiteLoaders.Binder.AddSite | src/Express/HTTP/Binder.cpp:70-74 | the site of the host gets the new contents and no other site changes; no site object is replaced |
| SiteLoaders.Binder.RemSite | src/Express/HTTP/Binder.cpp:76-86 | the routes of the host go, its count of active calls stays and is answered |
| SiteLoaders.Binder.Find | src/Express/HTTP/Binder.cpp:109-133 | the named host answers first, then the site without a host, else the 404 action |
| SiteModel.AnswerIsRegistration | src/Express/HTTP/Binder.cpp:109-133 | with literal routes the named host answers with its registration for the method, then with that for all methods; the site without a host answers, in the same order, if and only if the named host has neither |
| SiteLoaders.DynamicSiteLoader.StartCall | src/Express/HTTP/Binder.cpp:109-133 | a request that finds an action runs it, makes the counter of the site it was found on go up by one and starts one call of that library; any other request changes nothing |
| SiteModel.StartRunsRegistration | src/Express/HTTP/Binder.cpp:109-133 | a request for a registered literal path starts a call of the library that registered it, counted on the host it was found on |
| SiteModel.EndTakesItsCall | src/Express/HTTP/Binder.cpp:41-46 | exactly the call that ends is gone, and its site counts one call less |
| SiteLoaders.DynamicSiteLoader.EndCall | src/Express/HTTP/Binder.cpp:41-46 | the counter a call has held on to since it began is still that of the site serving its host, whatever was loaded and unloaded meanwhile, and goes down by one |
| SiteModel.FindAction | src/Express/HTTP/Binder.cpp:48-64 | whatever `find` answers is registered for the method, or for all methods, under a route that compares equal to the path |
| SiteModel.FindActionIsRegistration | src/Express/HTTP/Binder.cpp:48-64 | with literal routes and none that blocks, the answer is the registration of the path for the method, else for all methods, else none |
| SiteModel.FindActionFollowsRoute | src/Express/HTTP/Binder.cpp:48-64 | with names in the routes, the action of a route the lookup turns towards in the table of the method, else of one in the table for all methods |
| SiteLoaders.DynamicSiteLoader.Load | src/Express/HTTP/DynamicSiteLoader.cpp:17-68 | all fields after a load, and its answer, for every outcome of opening the library; a library without its entry points stays open |
| SiteModel.LoadAnswersExactly | src/Express/HTTP/DynamicSiteLoader.cpp:17-68 | a known entry changes nothing; a library that fails stays open; else the host serves the routes of the library, and the answer is the number of entries that now use it |
| SiteLoaders.DynamicSiteLoader.Unload | src/Express/HTTP/DynamicSiteLoader.cpp:70-111 | all fields after an unload, and its answer |
| SiteModel.UnloadAnswersExactly | src/Express/HTTP/DynamicSiteLoader.cpp:70-111 | what is not loaded is not found; else the routes of the host go at once; while calls run the entry stays, and the answer is their number and the number of users; else the entry goes, and the answer is the number of users left; the library is closed when there are none |
| SiteModel.EmptySiteIsSilent | src/Express/HTTP/Binder.cpp:76-86 | a host whose routes have gone answers no request |
| SiteLoaders.DynamicSiteLoader.Perform | src/Express/HTTP/DynamicSiteLoader.cpp:17-111 | on the objects, every load, unload, start and end of a call is one step of the run model and keeps the state safe |
| SiteLoaders.DynamicSiteLoader.PerformAll | src/Express/HTTP/DynamicSiteLoader.cpp:17-111 | all operations of any run on a new loader object end in the last state of the run, which is safe |
| SiteModel.LoadIsSafeExactly | src/Express/HTTP/DynamicSiteLoader.cpp:50-67 | a load keeps counts, bindings and open libraries right if and only if no call is running on its port and host |
| SiteModel.LoadClosesSafelyExactly | src/Express/HTTP/DynamicSiteLoader.cpp:50-102 | after a load every continuation, further loads that meet a running call aside, closes libraries only when no entry uses them and none of their calls runs, if and only if no call runs on the port and host of the load |
| SiteModel.FailedLoadIsSafe | src/Express/HTTP/DynamicSiteLoader.cpp:19-48 | a load that adds no entry keeps the state safe |
| SiteModel.OneBaseMeetsNoCall | src/Express/HTTP/DynamicSiteLoader.cpp:19-22 | with at most one base per port and host no load meets a running call |
| SiteModel.UnloadIsSafe | src/Express/HTTP/DynamicSiteLoader.cpp:70-111 | every unload keeps the state safe and never fails to find its host |
| SiteModel.CloseIsSafe | src/Express/HTTP/DynamicSiteLoader.cpp:94-102 | a library is closed only when no entry uses it, none of its calls runs and no route leads to it |
| SiteModel.StartIsSafe | src/Express/HTTP/Binder.cpp:41-64 | starting any call keeps counters equal to running calls |
| SiteModel.EndIsSafe | src/Express/HTTP/Binder.cpp:41-46 | ending any call keeps counters equal to running calls |
| SiteModel.RunIsSafe | src/Express/HTTP/DynamicSiteLoader.cpp:17-111 | in every state of every run sites count their running calls, `libCount` is the number of entries of a library, each port is listened on once, and bound libraries are open |
| SiteModel.SafeRunsOpenCode | src/Express/HTTP/DynamicSiteLoader.cpp:79-102 | in a safe state every running call and every route belongs to an open library |
| SiteModel.RunClosesSafely | src/Express/HTTP/DynamicSiteLoader.cpp:79-102 | in every run a library is closed only when no entry uses it and none of its calls is running |
| SiteModel.OneBaseRunIsSafe | src/Express/HTTP/DynamicSiteLoader.cpp:17-111 | with at most one base per port and host every state of every run is safe and every library is closed unused |
| SiteModel.SecondBaseClosesRunningLibrary | src/Express/HTTP/Binder.cpp:70-74 | a second base on one port and host leads to closing a library whose call is running |
| SiteModel.WaitingIsReached | src/Express/HTTP/DynamicSiteLoader.cpp:79-91 | the state this starts from is reached by loading the first base, starting a call and unloading |
| SimpleProtocol.ReadMessageHandler.EventActivate | src/Express/Simple/ProtocolSimple.cpp:15-60 | whatever pieces arrive, the reader waits with what it took in place, only while the frame is not whole and the peer has not stopped, or hands over the one message that answers the whole input |
| SimpleProtocol.WriteMessageHandler.EventActivate | src/Express/Simple/ProtocolSimple.cpp:74-106 | what is written is always the beginning of the frame, and the stream is closed after all of it or on a broken peer, and only then |
| SimpleProtocol.Serve | src/Express/Simple/ProtocolSimple.cpp:15-106 | for any number of activations and any pieces, the output is a prefix of the one reply, and all of it once a connection that did not break is closed; unless the reader throws, it is closed when there were more activations than bytes read and written and activations without any byte |
| SimpleProtocol.NoReplyExactly | src/Express/Simple/ProtocolSimple.cpp:40 | `resize` throws, and there is no answer, if and only if a whole size object comes whose highest byte is 128 or more |
| SimpleProtocol.FrameIsEchoed | src/Express/Simple/ProtocolSimple.cpp:38-59 | a full frame is answered with its own payload and the suffix, whatever follows it |
| SimpleProtocol.BrokenFrameIsReported | src/Express/Simple/ProtocolSimple.cpp:15-60 | a frame that breaks off is answered with "Failed: Reading Size Object" or "Failed: Size OK. But message incomplete", by how far it came |
| SimpleProtocol.ReplyIsReadBack | src/Express/Simple/ProtocolSimple.cpp:74-106 | a peer that reads the answer finds its size and then exactly the message |
| SimpleProtocol.DecodeEncode | src/Express/Simple/ProtocolSimple.cpp:80-82 | a size object decodes to the size it was made from |
| SimpleProtocol.EncodeDecode | src/Express/Simple/ProtocolSimple.cpp:21-22 | any bytes of a size object are those of the size they decode to, so no two size objects mean the same |
| EventLoop.Server.AddHandler | src/Core/Service/Server.tpp:39-46 | the new handler is registered and armed, nothing else changes |
| EventLoop.Server.TransferHandler | src/Core/Service/Server.tpp:48-57 | a child is added that will resume the current handler; it throws exactly when no suspendable handler is running |
| EventLoop.Server.DropHandler | src/Core/Service/Handler.cpp:119-136 | the handler is disarmed and retired, its stream closed unless it moves, and the one it waits for is armed for both events |
| EventLoop.Server.MoveHandler | src/Core/Service/Handler.tpp:28-42 | the handler is dropped and a new one takes its place |
| EventLoop.Server.PurgeRetiredHandlers | src/Core/Service/Server.cpp:108-115 | exactly the retired handlers are destroyed |
| EventLoop.Server.Activate | src/Core/Service/Handler.cpp:92-97 | one activation is one step of the run model, ending as the code of the handler says |
| EventLoop.Server.Start | src/Core/Service/Server.cpp:53-70 | the loop goes on with a run of the model, step by step, whatever the handlers do as long as they wait unarmed: as many rounds as given, unless it is shut down, each of them activations and then a purge |
| EventModel.TransferKeepsInvExactly | src/Core/Service/Handler.cpp:99-103 | a wait keeps the invariant if and only if the waiting handler has no event armed |
| EventModel.DropKeepsInv | src/Core/Service/Handler.cpp:119-136 | dropping a handler nobody waits for keeps the invariant, the handler it resumes included |
| EventModel.StepKeepsInv | src/Core/Service/Handler.cpp:92-148 | every step in which handlers wait unarmed keeps the invariant |
| EventModel.ReturnArms | src/Core/Service/Handler.cpp:92-97 | after an activation that returns a mask the handler is armed for the mask, and for what was armed and has not fired; everything else is as before |
| EventModel.StepArmsExactly | src/Core/Service/Handler.cpp:92-148 | after any step an event is armed if and only if the step asks for it, or it was armed and is not taken away |
| EventModel.StepLivesExactly | src/Core/Service/Handler.cpp:92-136 | which handlers are registered, retired and destroyed after any step |
| EventModel.StepSuspendsExactly | src/Core/Service/Handler.cpp:99-103 | which handler resumes which after any step |
| EventModel.PurgeTakesRetired | src/Core/Service/Server.cpp:108-115 | after a purge no handler is retired, those that were are gone, and the others are as before |
| EventModel.RunArmsExactly | src/Core/Service/Server.cpp:53-70 | no wake-up is lost or made up: in every run an event is armed if and only if some step has asked for it, and since then it has not fired and its handler has not dropped, been replaced or been destroyed |
| EventModel.RunKeepsInv | src/Core/Service/Server.cpp:53-70 | in every state of every such run retired handlers are registered, once each, armed handlers are live, and an awaited handler is live, unarmed and awaited by one handler only |
| EventModel.RunActivatesLive | src/Core/Service/Handler.cpp:92-97 | no retired, destroyed or awaited handler is ever activated |
| EventModel.RunRearmsByDrop | src/Core/Service/Handler.cpp:105-108 | an awaited handler is armed again only by the drop of the handler it waits for |
| EventModel.RunDestroysInPurge | src/Core/Service/Server.cpp:108-120 | handlers are destroyed by the purge only, when retired, and never come back |
| EventModel.ArmedWaiterIsDestroyed | src/Core/Service/Handler.cpp:99-108 | a handler that waits with an event armed is destroyed while another handler is going to resume it |
| EventModel.ResumedIsReached | src/Core/Service/Handler.cpp:105-108 | the state this starts from is reached by three ordinary steps |
| Uris.URI.constructor | src/Express/HTTP/Types.cpp:42-86 | host and port, narrowed to a `short`, path, query and fragment, and the parameters stored for the query |
| Uris.AuthorityRoundTripExactly | src/Express/HTTP/Types.cpp:45-54 | for a host without ':' and a port that is an `int`, host and decimal port come back from their printed form if and only if the port is below 32768 |
| Uris.AtoiReads | src/Express/HTTP/Types.cpp:53 | blanks, a sign and decimal digits are read as the signed number, whatever follows them |
| Uris.AtoiOfText | src/Express/HTTP/Types.cpp:53 | text that begins with no blank, sign or digit, the empty text included, is read as 0 |
| Uris.LargePortTurnsNegative | src/Express/HTTP/Types.h:90 | "h:40000" is stored with port -25536 |
| Uris.URI.CollectParams | src/Express/HTTP/Types.cpp:76-85 | the loop over the query ends and stores every parameter in order |
| Uris.SplitConcatenates | src/Express/HTTP/Types.cpp:56-74 | the three parts concatenate to the text with its first separator put right, and none holds a separator that ends it |
| Uris.SplitOfParts | src/Express/HTTP/Types.cpp:56-74 | any well-cut parts are recovered from their concatenation |
| Uris.SplitIsStable | src/Express/HTTP/Types.cpp:56-74 | parsing what was parsed gives the same parts |
| Uris.RebuiltExactly | src/Express/HTTP/Types.cpp:76-85 | separators, keys and values concatenate to the query if and only if no part before the last is empty |
| Uris.OneParamEachPart | src/Express/HTTP/Types.cpp:76-85 | every part of the query, empty ones and those without '=' included, gives exactly one parameter |
| Uris.PrintThenParams | src/Express/HTTP/Types.cpp:76-85 | printed pairs are parsed back in order, each value with its '=' |
| Uris.QueryRoundTrip | src/Express/HTTP/Types.cpp:56-96 | path, pairs and fragment printed and parsed: path and fragment come back, and each name holds its values in order |
| Uris.ValueHasEqualsExactly | src/Express/HTTP/Types.cpp:81-83 | a stored value begins with '=' if and only if its part of the query has one |
| Uris.FirstParamExactly | src/Express/HTTP/Types.cpp:76-85 | a part is cut before its first '='; without one the last part is all key, another gives exactly its last character to the value, and an empty one takes in the text behind it |
| Uris.KeyIsWholeExactly | src/Express/HTTP/Types.cpp:81-83 | a stored key is the text of its part up to the first '=', or all of it, if and only if the part has a '=' or is the last one |
| Uris.PartWithoutEquals | src/Express/HTTP/Types.cpp:81-83 | the part "ab" is stored as key "a" with value "b" |
| HeaderStore.Headers.Insert | src/Express/HTTP/Types.cpp:11-22 | the value, line breaks made spaces, goes behind the values of its name |
| HeaderStore.CleanBreaks | src/Express/HTTP/Types.cpp:11-22 | a line break in a value becomes a space, and nothing else changes |
| HeaderStore.PutAllGroups | src/Express/HTTP/Types.cpp:11-40 | storing pairs groups them by name and keeps the order within a name |
| HeaderScanner.HttpParserData.AddCurrentHeader | src/Express/HTTP/HttpScanner.cpp:79-88 | a header with a value is stored and the accumulators are emptied; without a value nothing changes |
| HeaderScanner.HttpParserData.Receive | src/Express/HTTP/HttpScanner.cpp:48-62 | any sequence of callbacks runs as the callback model says |
| HeaderScanner.FragmentationDoesNotMatter | src/Express/HTTP/HttpScanner.cpp:48-88 | for every way of cutting names and values, each header is stored whole, repeated names in order |
| HeaderScanner.ScanStores | src/Express/HTTP/HttpScanner.cpp:48-88 | what is stored from any state and for any headers, those without a value callback included |
| HeaderScanner.StoredExactly | src/Express/HTTP/HttpScanner.cpp:48-88 | the stored headers are the headers as they came if and only if each comes with a value callback |
| HeaderScanner.NameWithoutValueIsGlued | src/Express/HTTP/HttpScanner.cpp:48-88 | a name "A" without a value callback before "B" with value "x" is stored as "AB" with value "x" |

## Left out

- SiteLoaders.Site.Add: a path that begins with ':' (see `Routes.Route.Split`).
- SiteLoaders.DynamicSiteLoader.Unload: a library counts as closed also when `dlclose` reports an error, and the use count inside `dlopen` is not modelled.
- Indexes.Index.Search: the division of the dot products by the magnitudes, which take a square root, and with it the order of the answer; the logarithms in the weights, which are parameters; rounding.
- TokenStores.TokenStore.Expand: the order in which a JavaScript object lists its keys is left open.
- Routes.Route.Compare: paths of more than 2^31 - 1 characters, where the answer does not fit an `int`; and the empty route against a path that is not empty, where the code reads before the start of the path.
- Routes.Route.Split: a text whose first character is ':', where the code reads before the start of the text; and the views into the text that a moved route would leave behind.
- RouteMaps.LiteralLookup: tables with named segments, or with prefixes that do not pass, where the mixed comparison is no consistent order; for these `RouteFoundInTreeExactly` and `LookupFindsInTreeExactly` give the exact condition.
- EventLoop.Server.Start: handlers that wait with an event armed (`ArmedWaiterIsDestroyed` is what then happens); the loop runs any number of rounds given to it, not for ever; timers, timeouts and `loopbreak` are left out.
- EventLoop.Server.Activate: exceptions, failing libevent calls and the drop flag that the coroutine captures from an earlier stack frame.
- HeaderScanner.HttpParserData.OnUrl: a URL in several pieces, of which the code keeps the last.
- Uris.URI.constructor: a port that is no `int`, which `atoi` leaves undefined.
- SimpleProtocol.ReadMessageHandler.EventActivate: running out of memory for a size that a string could hold.
- Document references named `__proto__`, which a JavaScript object cannot hold, and index serialisation.
- What closing a socket or stream does beyond setting the `closed` flags of `SimpleProtocol` and `EventLoop`, and time-outs of peers.
- `Response::flushing`, `DeveloperHandler`, the MySQL wrappers, `NodeCXX` and the example site: plumbing without state that outlives a call.
