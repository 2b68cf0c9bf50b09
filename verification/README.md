# Models and proofs for the algorithm and Lispy sources

The project models nine programs of the repository and proves what they are for, for every
input and every run, or where just that fails. `dafny verify dfyconfig.toml` checks all of it.

**The mpc parser engine** (`lisp-c/ch06/mpc.c`; chapters 7 to 10 carry the same file).
`MpcParser` gives the meaning of a parser tree: `Run` takes a grammar, an input, a parser and a
cursor to an outcome, with undefined behaviour of the C program as an outcome of its own.
Named parsers are references into the grammar, so grammars may be recursive, and fuel bounds
the unfolding; `MoreFuel` shows that fuel never decides which outcome is reached. `MpcInput` is
the interpreter as it works, on an input object with its stack of marks and its counters, proved
against `Run`. `MpcBacktrack` says which failures leave the input alone.

`MpcMeaning` says once more, of the text alone and without running anything, from which character to which
every parser succeeds, with which result, and where it fails; `SucceedsExactly` and `FailsExactly` tie that
to the runs both ways, and `Input.ParseRun` and `Input.ParseInput` to the interpreter. `MpcText` says where
an input stands after so many characters. `MpcMatching` defines what a regular expression matches, on the
expression itself, and proves that the compiled parser and the optimised one match just that.
`MpcLispyReading` is a reader for the Lispy language written by hand: the grammar, once built and
optimised, accepts the texts it reads and no others, and yields its trees.

The optimiser is modelled twice. `MpcOptimise` has its rules as they are meant: they end, leave
nothing to do and are idempotent. `MpcCoded` has the rounds as performed on arrays of pointers, with
undefined behaviour, and `CodedExactly` says for which parsers they are defined, by a test that a
caller can make, and that they then do what is meant. `MpcNodes` rewrites the nodes in place and is
proved against `MpcCoded`; `MpcNames` says which named parsers may be optimised where they stand, one
after the other. `MpcRules` treats the rules one by one, with the exact condition of each.
`MpcLeaves` gives what becomes of nested sequences in closed form, `MpcNear` relates folding in any
nesting to folding at once, and `MpcSoundness` proves that optimising any selection of names of a
grammar preserves meaning. `MpcGrammars` and `MpcLispyGrammar` show that the rules of grammars given
as text, and all those of the Lispy grammar, meet its conditions. `MpcAst` has the fold that glues
trees and says exactly when nesting it is the same as not nesting it. `MpcRegex` follows the folds
that build parsers from regular expressions, through the optimiser, to the theorem that a success
yields the very stretch of input it has read, and `MpcCodedRegex` says for which expressions the
optimiser as coded is defined. `MpcCountedRegex` is about counted repeats, which do not rewind.

`MpcTermination` says which grammars come to an end on every input, before and after optimising,
and `MpcLispyEnds` that the Lispy grammar does.

`MpcTraversal`, `MpcPool` and `MpcEscape` are the tree iterator, the slot allocator and the
escaping tables.

**Graph algorithms** (`algo/graphs`). `Graphs` defines walks. Breadth-first search, the
two-colouring search that puts vertices back into its queue, and the depth-first check for cycles
run on coloured vertex objects; what they keep is proved on the marks as values
(`BreadthFirstMarks`, `ColoringMarks`, `DepthFirstMarks`) and each program is tied to it.
`KahnSort` is the counting topological sort.

**Dynamic programming** (`algo/dyn-prog`). `OptimalBst` and `Lcs`: a table cell is the
minimum over all search trees, or the maximum over all common subsequences, and what is printed
attains it.

**The shuffle** (`algo/randoms/permute_without_id.cpp`). `Sattolo`: whatever the random
choices, the positions are moved along one single cycle; every such permutation is reached, by one
sequence of choices only.

**The Lispy evaluator** (`lisp-c/ch10/qexpr.c`). `LispyValues` has what evaluation is meant to
give: it ends although `eval` evaluates computed code, and a result is a value. `LispyMeaning` says what
that value is, by sums, products, remainders and places in lists, and that nothing else is. `LispyCoded` is
evaluation as performed on arrays of cells, with undefined behaviour: it is defined exactly for tame
expressions, and then gives that value. `LispyForecast` tells without evaluating anything whether it is
defined and of which kind the result is. `Lispy` edits the cells in place and is proved against
`LispyCoded`. `LispyReader` turns the trees of programs into values and values into text; what is printed of
a value is read back as that value (`PrintedIsRead`). `Memory` has the blocks that `MpcCoded` and `LispyCoded` move, `Slices` a fact on halves of
sequences.

Where the code does not do what it is for, the model says so and proves exactly when it does:

* A left-hand alternative is merged with the tail of the wrong list, and one pointer too many is
  written (`mpc.c:3716`): `MergeFirstOrOverruns` shows that every such merge leaves its array. A
  parser meets it exactly when some alternatives begin with what comes down to alternatives and have
  others behind them (`CodedExactly`); a regular expression when a group with bars stands alone before
  a bar (`CodedRegexExactly`). `CodedLeftMergeMeans` says what the merged list would mean if the
  overrun did no harm, and `CodedLeftMergeLosesAlternative` has an input that is then refused.
* Where a named parser is left alone behind a dropped element it is copied and freed under its other
  holders (`mpc.c:3731-3732`); `CodedExactly` excludes just that. In grammars given as text it cannot
  happen, as names stand inside other parsers (`AlternativesSafe`).
* A named parser that is optimised in place and comes down to the second of two elements is copied over,
  its mark as a name included (`mpc.c:3731`, `3781`); the next parser optimised looks through it
  (`NameIsLost`). `InPlaceExactly` says when all stay names, by a test on the bodies as written. Bodies
  that are optimised before they are bound (`mpc.c:3432-3433`) are not concerned (`CodedSound`).
* Dropping a `pass` or a `lift` is right exactly when the parser behind it does not fail away from
  where it began (`DropPassExactly`, `DropLiftExactly`). A counted repeat does
  (`CountDoesNotRestore`), so `a{2}|b` accepts ab once optimised (`DroppedLiftAccepts`); inside a
  longer sequence it does no harm (`CountedSound`).
* Merging tree sequences changes the tree in two cases, given exactly by `RegroupExactly` and, for
  whole sequences, by `TreeMergeExactly`; `OptionalPartsAreRegrouped` is an instance.
* An empty alternative succeeds and must not be merged (`EmptyOrIsNotMergeable`).
* In predictive mode an optional part may yield less than was read (`SlicesNeedBacktracking`). For
  expressions in which what may fail has only empty matches before it `RegexSlices` holds in that mode
  too.
* The boundary escape holds at both ends of a text whatever stands there, as C's search for a word character
  also finds the terminator (`mpc.c:1835-1844`); `BoundaryIs` says just where it holds.
* A repeat keeps what it has matched, so that `a*a` matches nowhere (`NeverGoesBack`).
* Taking a cell out moves as many pointers as are left, wherever they begin (`qexpr.c:164`), and so stays
  inside its array for the first cell only (`PopExactly`). `(head {1 2})` reads behind the array
  (`HeadOfTwo`), and an error in a later cell is taken out of it by writing behind it (`ErrorBehind`).
  Evaluation is defined exactly for tame expressions (`EvalExactly`); `ForeseeRight` and
  `DirectExactly` tell them without evaluating.
* `eval` is meant to undo `list` exactly for non-empty lists, and `join` to undo `head` and `tail` exactly
  for non-empty ones. As performed, the first holds unless the first member is an error
  (`CodedEvalUndoesList`), the second exactly for lists of one cell (`CodedJoinHeadTail`).
* The two-colouring search answers True for a start that is its only rival, where there is no colouring
  (`BfsColor`, `LoopRefutes`).

## Model

| member | source | states |
|---|---|---|
| MpcAst.FoldAstLoop | lisp-c/ch06/mpc.c:2994-3030 | The loops that append children build the tree in which every part has its place: a leaf stands there whole; an only child with its contents, state and children, and all but the last character of its parent's tag before its own; more children one after the other. The root has the state of the first. |
| MpcAst.FoldStands | lisp-c/ch06/mpc.c:2994-3030 | That tree is the only one in which the parts stand so. |
| MpcAst.RootRebuilds | lisp-c/ch06/mpc.c:2994-3030 | Folding a tree on its own gives it back if and only if it is a plain root. |
| MpcAst.FoldContributes | lisp-c/ch06/mpc.c:2994-3030 | A folded group contributes the children its parts did, except that three or more absent parts leave one empty root. |
| MpcAst.RegroupExactly | lisp-c/ch06/mpc.c:2994-3030 | For all parts, a nested fold equals the flat fold if and only if neither a lone tree would be wrapped nor an empty root be left behind. |
| MpcAst.RegroupWithEnough | lisp-c/ch06/mpc.c:3736-3769 | Two present parts in the group suffice, or one of three or more, whatever stands around it. |
| MpcInput.Input.constructor | lisp-c/ch06/mpc.c:101-128 | A new string input stands at the start, backtracking, with no mark set. |
| MpcInput.Input.Mark | lisp-c/ch06/mpc.c:299-318 | Pushes the position unless backtracking is off; growing the arrays loses no mark. |
| MpcInput.Input.Unmark | lisp-c/ch06/mpc.c:320-340 | Drops the last mark; shrinking the arrays loses no other. |
| MpcInput.Input.Rewind | lisp-c/ch06/mpc.c:342-354 | Goes back to the last mark and drops it. |
| MpcInput.Input.Advance | lisp-c/ch06/mpc.c:452-477 | Position, row, column and last character after one character. |
| MpcInput.Input.TakeIf | lisp-c/ch06/mpc.c:479-513 | One character is read if it is there and passes, else nothing moves. |
| MpcInput.Input.ReadString | lisp-c/ch06/mpc.c:515-532 | The whole string or, with backtracking, nothing; the marks are put back. |
| MpcInput.Input.ParseRun | lisp-c/ch06/mpc.c:1009-1229 | For every parser, the run reports what its meaning says, moves the input there, and at every exit leaves the counters and all marks below as on entry. The outcome is a success or failure that the parser means by the text alone. |
| MpcInput.Input.ParseInput | lisp-c/ch06/mpc.c:1235-1247 | A run on its own: the parser succeeds from where the input stood to where it is left, with the result reported, or fails; whatever the parser means, the run comes to, unless the fuel runs out. |
| MpcInput.Input.ParseBasic | lisp-c/ch06/mpc.c:1018-1036 | The same for the parsers without a parser inside; what each accepts is stated by SucceedsExactly. |
| MpcInput.Input.ParseWrapped | lisp-c/ch06/mpc.c:1040-1072 | The same for apply, expect and predict, which count suppression and backtracking up and down. |
| MpcInput.Input.ParseNot | lisp-c/ch06/mpc.c:1078-1090 | Negation marks, and rewinds when the other parser succeeds. |
| MpcInput.Input.ParseMany | lisp-c/ch06/mpc.c:1102-1146 | Repeats until a failure and folds what is there; at least one when asked for. |
| MpcInput.Input.ParseCount | lisp-c/ch06/mpc.c:1150-1172 | Counts to n without a mark; a count below one runs over its array. |
| MpcInput.Input.ParseOr | lisp-c/ch06/mpc.c:1176-1194 | The first alternative that succeeds, each begun where the one before stopped. |
| MpcInput.Input.ParseAnd | lisp-c/ch06/mpc.c:1196-1219 | All in a row, folded, or a rewind to the beginning. |
| MpcBacktrack.FailureRestores | lisp-c/ch06/mpc.c:1009-1229 | With backtracking on, every failing run of a parser whose failure shows no COUNT, no PREDICT and only names known to rewind ends at the state and last character it began with. |
| MpcBacktrack.ManyFails | lisp-c/ch06/mpc.c:1102-1146 | A repeat fails only in its first round, and as its body does. |
| MpcBacktrack.AndFails | lisp-c/ch06/mpc.c:1196-1219 | A failing sequence has rewound to its beginning, whatever its elements do. |
| MpcBacktrack.CountDoesNotRestore | lisp-c/ch06/mpc.c:1150-1172 | A failing COUNT has eaten input. |
| MpcBacktrack.MoreFuel | lisp-c/ch06/mpc.c:1009-1229 | The outcome of a run does not depend on how deep names and repeats are allowed to unfold. |
| MpcText.StandingSteps | lisp-c/ch06/mpc.c:452-477 | After any number of characters the row is the number of line ends read, the column the distance from the last one, and the last character the one before. |
| MpcMeaning.SucceedsExactly | lisp-c/ch06/mpc.c:1009-1229 | Some run of a parser succeeds on a stretch of the text with a result if and only if the parser means that: a class on one character in or outside its set, a literal on its word, a sequence on its elements in turn, an alternative on the first that succeeds, a repeat up to the first failure, a count on just so many. |
| MpcMeaning.FailsExactly | lisp-c/ch06/mpc.c:1009-1229 | And fails, leaving the input at some character, if and only if the parser means that, in predictive mode too. |
| MpcMeaning.OneSuccess | lisp-c/ch06/mpc.c:1009-1229 | What a parser means from a character on is unique: one success, or no success. |
| MpcMeaning.FailsInPlace | lisp-c/ch06/mpc.c:1009-1229 | Where no COUNT or PREDICT shows and marks are set, a failure leaves the input where it was. |
| MpcMeaning.FoldsExactly | lisp-c/ch06/mpc.c:2426-2458 | What the folds yield: all strings one behind the other, the tree in which all parts stand, one of the results, NULL, or the tree with the state before it. |
| MpcNodes.Node.SpliceKid | lisp-c/ch06/mpc.c:3695-3705 | Moving the kids of a list into its parent, in place, splices the parsers they stand for; the nodes stay a tree. The merges at 3736-3768 and 3786-3818 do the same. |
| MpcNodes.Node.BecomeSecond | lisp-c/ch06/mpc.c:3722-3733 | Overwriting a node with its second kid, a node of its own, makes it stand for that kid; the copy is of all fields, so a retained parser loses its name. |
| MpcNodes.MergeOr | lisp-c/ch06/mpc.c:3695-3719 | The tests on an alternative, last element first: the change of the round as coded, nothing to do, or no meaning when the list is empty or the left merge would write past its array. |
| MpcNodes.MergeAnd | lisp-c/ch06/mpc.c:3722-3820 | The same for the six tests on a sequence, in their order; no meaning when the element left alone is a name, or an empty list is read. |
| MpcNodes.OptimiseKid | lisp-c/ch06/mpc.c:3660-3689 | Optimising below one pointer changes nothing beside it and stops at names. |
| MpcNodes.OptimiseUnretained | lisp-c/ch06/mpc.c:3660-3825 | For every tree of nodes, rewriting it in place, children first, leaves what the optimiser as coded makes of the parser, and tells when that has no meaning. |
| MpcNodes.OptimiseParser | lisp-c/ch06/mpc.c:3827-3829 | In place it is defined if and only if the parser is safe, and then leaves the parser it is meant to leave; a retained parser keeps its name if and only if it does not come down to the second of two elements. |
| MpcNodes.RewriteRoot | lisp-c/ch06/mpc.c:3693-3823 | The loop ends: after the rounds as coded, in order, until nothing is left to do or a round has no meaning. |
| MpcOptimise.OptimiseIsNormal | lisp-c/ch06/mpc.c:3660-3825 | No unretained node is left on which a rule applies. |
| MpcOptimise.OptimiseIsFlat | lisp-c/ch06/mpc.c:3660-3829 | What is left is flat: no alternatives at an end of alternatives, no sequence at an end of one with its fold, no pass or empty lift before a single element. |
| MpcOptimise.OptimiseTwice | lisp-c/ch06/mpc.c:3827-3829 | Optimising again changes nothing. |
| MpcCoded.MergeLastSplices | lisp-c/ch06/mpc.c:3695-3705 | The moves of the right merges stay inside their arrays and splice the list in. |
| MpcCoded.MergeFirstSplices | lisp-c/ch06/mpc.c:3736-3751 | So do those of the left merges of sequences, exactly when the inner list is not empty. |
| MpcCoded.MergeFirstOrOverruns | lisp-c/ch06/mpc.c:3708-3719 | The left merge of alternatives leaves its array whenever it is made. |
| MpcCoded.CodedRuleExactly | lisp-c/ch06/mpc.c:3693-3823 | For every parser, a round as coded is the rule as it is meant, except exactly where it breaks: on an empty list, at the left merge of alternatives, where a name is left alone. |
| MpcCoded.RoundCases | lisp-c/ch06/mpc.c:3693-3823 | A round as coded that has a meaning drops the first of two elements or splices in one end of the list, the first end only of a sequence; the tree gets smaller, so the loop ends. |
| MpcCoded.RoundCounts | lisp-c/ch06/mpc.c:3615-3652 | It keeps the node count; dropping a pass or a lift lowers it by one. |
| MpcCoded.RootStaysExactly | lisp-c/ch06/mpc.c:3722-3784 | Whether some round copies the second of two elements over the root, name and all, can be told from the parser as written. |
| MpcCoded.ToUnitRight | lisp-c/ch06/mpc.c:3722-3784 | The test on the parser as written tells whether optimising brings it down to what is dropped. |
| MpcCoded.RemainsRight | lisp-c/ch06/mpc.c:3722-3784 | And whether it brings it down to alternatives or to a name. |
| MpcCoded.CodedExactly | lisp-c/ch06/mpc.c:3660-3829 | For every parser, the optimiser as coded is defined if and only if the parser is safe, and then does what it is meant to do. |
| MpcCoded.NormalIsSafe | lisp-c/ch06/mpc.c:3660-3829 | What has been optimised may be optimised again. |
| MpcCoded.NameBehindPass | lisp-c/ch06/mpc.c:3722-3733 | A pass before a name: meant to leave the name, undefined as coded. |
| MpcLeaves.RewriteEnds | lisp-c/ch06/mpc.c:3722-3820 | The loop on a sequence of optimised elements, in closed form: the second of two, or one sequence with both ends opened. |
| MpcLeaves.OptimiseEnds | lisp-c/ch06/mpc.c:3660-3829 | What becomes of a sequence in general. |
| MpcNear.FoldNear | lisp-c/ch06/mpc.c:2994-3030 | Folding the values of groups, however those were nested, comes near to folding all results at once. |
| MpcNear.NearIsFlat | lisp-c/ch06/mpc.c:2994-3030 | Near is equal when there are at most two results or two that are not NULL. |
| MpcNodes.CountNodes | lisp-c/ch06/mpc.c:3615-3652 | The recursion over the nodes adds up the node count of the parser they stand for. |
| MpcRules.OrMergeKeeps | lisp-c/ch06/mpc.c:3695-3719 | Splicing non-empty alternatives into alternatives changes no outcome, state or value. |
| MpcRules.EmptyOrIsNotMergeable | lisp-c/ch06/mpc.c:1178 | An empty alternative succeeds; splicing it in loses that success. |
| MpcRules.CodedLeftMergeMeans | lisp-c/ch06/mpc.c:3708-3719 | For any numbers of inner and outer alternatives, were the overrun harmless: the merged parser means the inner alternatives and whatever lay behind them, none of the outer ones. |
| MpcRules.CodedLeftMergeLosesAlternative | lisp-c/ch06/mpc.c:3716 | On the input c, (a or b or d) or c is refused after that merge. |
| MpcRules.FoldRegroups | lisp-c/ch06/mpc.c:939-947 | Concatenating a group first, or gluing one with enough results that are not NULL, changes no result. |
| MpcRules.AndMergeKeeps | lisp-c/ch06/mpc.c:3736-3820 | Splicing a sequence into one with the same fold keeps every run that has a meaning. |
| MpcRules.TreeMergeExactly | lisp-c/ch06/mpc.c:3736-3769 | For succeeding tree sequences the merge is right if and only if the collected parts meet the condition of RegroupExactly. |
| MpcRules.OptionalPartsAreRegrouped | lisp-c/ch06/mpc.c:3736-3752 | Three optional parts of which one is present: the merged parser wraps the tree. |
| MpcRules.DropPassExactly | lisp-c/ch06/mpc.c:3722-3734 | Dropping a pass is right if and only if the other parser does not fail away from its beginning while backtracking is on. |
| MpcRules.DropLiftExactly | lisp-c/ch06/mpc.c:3771-3784 | The same for the lift of an empty string. |
| MpcOptimisable.NonNullSound | lisp-c/ch06/mpc.c:1009-1229 | A parser that passes the syntactic test never succeeds with NULL. |
| MpcSoundness.DropSound | lisp-c/ch06/mpc.c:3722-3784 | A sequence that comes down to its second element, once its first has come down to a pass or a lift, may be replaced by that element, whatever sequences it holds. |
| MpcSoundness.LooseSound | lisp-c/ch06/mpc.c:3736-3820 | A nested sequence and the leaves it leaves in the outer one: the same success or failure, and a value near the folded results. |
| MpcSoundness.FoldAndSound | lisp-c/ch06/mpc.c:3722-3820 | All dropping and merging at one sequence preserves meaning there. |
| MpcSoundness.OptimiseSound | lisp-c/ch06/mpc.c:3660-3829 | For every grammar and parser meeting the conditions, every input, position, backtracking depth and fuel, and any choice of optimised names, the optimised parser has the same success or failure, value, state and last character, unless the original run is undefined. Nothing is asked of sequences in which nothing is dropped or merged. |
| MpcSoundness.CodedSound | lisp-c/ch06/mpc.c:3420-3443 | For bodies optimised before they are bound to their names: what the optimiser as coded leaves behind runs as before, for all safe parsers, which are exactly those it is defined for. |
| MpcNames.InPlaceExactly | lisp-c/ch06/mpc.c:3827-3829 | Names optimised in place one after the other all stay names, with the bodies they are meant to get, if and only if the body of each is safe and does not come down to the second of two elements. |
| MpcNames.InPlaceSound | lisp-c/ch06/mpc.c:3827-3829 | Optimising such names in place preserves every run of every name. |
| MpcNames.NameIsLost | lisp-c/ch06/mpc.c:3722-3733 | A name whose body drops a pass loses its mark; a second name that refers to it is then merged with its elements, where it would keep a reference. |
| MpcGrammars.PlainOptimiseSound | lisp-c/ch06/mpc.c:3660-3829 | For a grammar without COUNT and PREDICT and without empty alternatives, with a condition on its tree sequences only, optimising all names at once preserves every run that has a meaning. |
| MpcGrammars.BuildChain | lisp-c/ch06/mpc.c:3174-3181 | The fold of a term builds the left-leaning chain behind a pass, without the factors that are NULL. |
| MpcGrammars.GivenStands | lisp-c/ch06/mpc.c:3174-3181 | Every factor that is not NULL is in the chain, behind just as many as stand before it, and nothing else is. |
| MpcGrammars.ChainOptimised | lisp-c/ch06/mpc.c:3660-3829 | Optimising a chain leaves one flat sequence of its optimised factors, or the lone factor. |
| MpcGrammars.ChainFit | lisp-c/ch06/mpc.c:3174-3181 | A term may be optimised when its lone factor rewinds, or when it has two factors, or two of them are sure to yield a tree. |
| MpcGrammars.AlternativesFit | lisp-c/ch06/mpc.c:3168-3181 | So may a rule of such terms, which rewinds whatever its factors do. |
| MpcGrammars.GrammarSound | lisp-c/ch06/mpc.c:3420-3443 | For every grammar of such rules, optimising each of them preserves every run of every name. |
| MpcGrammars.AlternativesSafe | lisp-c/ch06/mpc.c:3276-3287 | Rules whose factors are other than lists, names and passes are safe for the optimiser as coded. |
| MpcLispyGrammar.LispySound | lisp-c/ch10/qexpr.c:329-341 | Optimising all rules of the Lispy grammar preserves every run of every name on every input, whatever its regular expressions without counted repeats are. |
| MpcLispyGrammar.LispyCoded | lisp-c/ch10/qexpr.c:329-341 | For these rules the optimiser as coded is defined and does what it is meant to do. |
| MpcLispyGrammar.BracketsAreFlat | lisp-c/ch10/qexpr.c:334-337 | A list of expressions in brackets becomes one flat sequence of three. |
| MpcLispyReading.ExpressionsAreRead | lisp-c/ch10/qexpr.c:329-341 | On every text, at every character, the grammar reads an expression if and only if the reader does, with the same tree and end, and otherwise fails where it began. |
| MpcLispyReading.ProgramsAreRead | lisp-c/ch10/qexpr.c:329-341 | The same of whole programs. |
| MpcLispyReading.ProgramsExactly | lisp-c/ch10/qexpr.c:348 | The same of the optimised grammar, which has no other result. |
| MpcLispyReading.OptimisedReads | lisp-c/ch06/mpc.c:3420-3443 | Optimising all its rules changes nothing that is read. |
| MpcTermination.RunMoves | lisp-c/ch06/mpc.c:1009-1229 | No run of any parser goes back before its beginning, and one that passes the test reads something whenever it succeeds. |
| MpcTermination.RunEnds | lisp-c/ch06/mpc.c:1009-1229 | When names enter only names of lower rank before they read, and what is repeated reads, fuel bounded by the rest of the input suffices for every run of every parser, whatever its folds and functions. |
| MpcTermination.OptimiseKeepsEarly | lisp-c/ch06/mpc.c:3660-3829 | Optimising changes neither what a parser enters before it reads nor whether it reads. |
| MpcTermination.GrammarEnds | lisp-c/ch06/mpc.c:3660-3829 | So such a grammar comes to an end on every input, before and after all its names are optimised. |
| MpcTermination.LeftRecursion | lisp-c/ch06/mpc.c:1009-1229 | A name that enters itself first never comes to an end. |
| MpcLispyEnds.LispyEnds | lisp-c/ch10/qexpr.c:329-341 | No run of any name of the Lispy grammar is endless, on any input, before and after its rules are optimised. |
| MpcLispyEnds.ExpressionsEnd | lisp-c/ch10/qexpr.c:329-341 | Its three regular expressions meet the conditions. |
| MpcRegex.BuildSequence | lisp-c/ch06/mpc.c:2011-2018 | The fold of a term builds the left-leaning chain of pairs; what it matches is stated by CompiledMatches. |
| MpcRegex.SlicingSlices | lisp-c/ch06/mpc.c:939-947 | A parser made of the regex building blocks yields exactly the input between where it began and where it ends, fails without moving, and is never undefined: with backtracking on, and for steady parsers also with it off. |
| MpcRegex.SlicesNeedBacktracking | lisp-c/ch06/mpc.c:1092-1098 | The expression (ab)? is not steady, and in predictive mode yields less than was read on ac. |
| MpcRegex.ConsumingConsumes | lisp-c/ch06/mpc.c:1009-1229 | A consuming parser never yields the empty string. |
| MpcRegex.ProgressTerminates | lisp-c/ch06/mpc.c:1102-1146 | When the bodies of repeats consume, fuel for the rest of the input suffices for every run. |
| MpcRegex.CompiledIsFine | lisp-c/ch06/mpc.c:2005-2077 | Every expression without a counted repeat compiles to such a parser, one that rewinds and may be optimised. |
| MpcMatching.CompiledMatches | lisp-c/ch06/mpc.c:2005-2157 | With fuel for the rest of the text, a compiled expression without counted repeats succeeds if and only if the expression matches, greedily and first alternative first, yields the text matched and ends behind it; it is endless if and only if a repeat matches the empty text. |
| MpcMatching.CompiledMeans | lisp-c/ch06/mpc.c:2005-2157 | The same of its meaning as a parser. |
| MpcMatching.OptimisedMatches | lisp-c/ch06/mpc.c:2159-2219 | The same of what the optimiser as coded leaves of it. |
| MpcMatching.EscapeMatches | lisp-c/ch06/mpc.c:2033-2053 | Digits, spaces and word characters by their ranges, their complements as empty matches, anchors and control characters by their codes. |
| MpcMatching.BoundaryIs | lisp-c/ch06/mpc.c:1835-1844 | A boundary is an end of the text, or a word character beside another one that is none. |
| MpcMatching.NeverGoesBack | lisp-c/ch06/mpc.c:1102-1124 | A repeat of a letter followed by that letter matches nowhere. |
| MpcCodedRegex.CodedRegexExactly | lisp-c/ch06/mpc.c:2005-2018 | The optimiser as coded is defined for a compiled expression if and only if no group with bars stands alone before a bar. |
| MpcCodedRegex.CodedRegexSlices | lisp-c/ch06/mpc.c:2005-2077 | For such an expression without counted repeats, what the optimiser as coded leaves behind yields the slice of input it has read, with the outcome of the parser before optimising; in predictive mode when what may fail has only empty matches before it. |
| MpcCodedRegex.CodedRegexTerminates | lisp-c/ch06/mpc.c:2005-2077 | And comes to an end when the bodies of its repeats consume. |
| MpcCodedRegex.GroupBeforeBar | lisp-c/ch06/mpc.c:3708-3719 | For (a or b or d) or c it is undefined. |
| MpcCountedRegex.DroppedLiftAccepts | lisp-c/ch06/mpc.c:3771-3784 | a{2} or b on ab: refused as compiled, accepted once optimised. |
| MpcCountedRegex.CountedSound | lisp-c/ch06/mpc.c:2005-2034 | For every expression in which no counted repeat stands alone in a group, optimising preserves every run that has a meaning. |
| MpcCountedRegex.AloneIsNotGuarded | lisp-c/ch06/mpc.c:2020-2034 | The condition shuts out a{2} or b. |
| MpcCountedRegex.InsideIsGuarded | lisp-c/ch06/mpc.c:2020-2034 | And admits a{2}b. |
| MpcTraversal.OrdersAgree | lisp-c/ch06/mpc.c:2858-2981 | Both recursive orders list every node of the tree once. |
| MpcTraversal.ListedStands | lisp-c/ch06/mpc.c:2858-2981 | Preorder is the only list that begins with the node and has the trees of its children one after the other in preorder, postorder the only one that ends with it. |
| MpcTraversal.Traversal.Start | lisp-c/ch06/mpc.c:2858-2898 | The coming calls will list the tree in the order chosen. |
| MpcTraversal.Traversal.Next | lisp-c/ch06/mpc.c:2900-2981 | A call returns the next node of that list, or NULL when there is none and from then on. |
| MpcTraversal.Traversal.NextPre | lisp-c/ch06/mpc.c:2909-2937 | Climbing and entering a child leaves the rest of the preorder. |
| MpcTraversal.Traversal.NextPost | lisp-c/ch06/mpc.c:2939-2974 | Climbing and descending leaves the rest of the postorder. |
| MpcTraversal.ListAll | lisp-c/ch06/mpc.c:2858-2981 | Calling until NULL lists exactly the recursive order, with one call for every node and one more. |
| MpcPool.Pool.Malloc | lisp-c/ch06/mpc.c:235-253 | Never a block still held; the first free slot going round; the heap if and only if the request is over 64 bytes or all 512 slots are held; no held byte changes. |
| MpcPool.Pool.Free | lisp-c/ch06/mpc.c:261-266 | Releases exactly the given block. |
| MpcPool.Pool.Realloc | lisp-c/ch06/mpc.c:268-282 | The new block begins with the old bytes; a slot that is big enough is kept; nothing else changes. |
| MpcPool.Pool.Export | lisp-c/ch06/mpc.c:284-291 | The same bytes outside the pool, and the slot free again. |
| MpcEscape.EscapeNew | lisp-c/ch06/mpc.c:2302-2336 | The loops write the escaped string: for each of the four styles, the image of every character stands in its place. |
| MpcEscape.UnescapeNew | lisp-c/ch06/mpc.c:2338-2376 | The loops read it back, first matching row first: for each style, a backslash and a letter as the character denoted, and a backslash before any other character as it is. |
| MpcEscape.EscapeWrites | lisp-c/ch06/mpc.c:2285-2336 | The escaped string is the only one with those images: in C style a b t n v f r 0 behind a backslash for the codes 7 to 13 and 0, backslash and quotes for themselves, in the others one character; the rest as it is. |
| MpcEscape.UnescapeReads | lisp-c/ch06/mpc.c:2285-2376 | And reading back gives the only string read so. |
| MpcEscape.NoRowAcross | lisp-c/ch06/mpc.c:2338-2376 | No row matches across a character that stands for itself and what follows it. |
| MpcEscape.RoundTrip | lisp-c/ch06/mpc.c:2302-2376 | Unescaping an escaped string gives it back, for every string without a terminator and every reversible table. |
| MpcEscape.TablesAreReversible | lisp-c/ch06/mpc.c:2285-2300 | The four tables are reversible, also those that do not escape the backslash. |
| BreadthFirstMarks.DiscoverKeeps | algo/graphs/bfs.py:13-17 | Marking a white successor keeps the queue in order of distance and every settled edge settled. |
| BreadthFirstMarks.FinishKeeps | algo/graphs/bfs.py:18 | Turning the first vertex black keeps the search. |
| BreadthFirstMarks.Overtaken | algo/graphs/bfs.py:5-18 | At the end no walk is shorter than a distance. |
| BreadthFirstMarks.SearchIsShortest | algo/graphs/bfs.py:5-18 | Distances are lengths of shortest walks, infinite and the colour white if and only if there is none, and path steps back along one. |
| BreadthFirst.BreadthFirstSearch | algo/graphs/bfs.py:5-18 | After the search that holds of every vertex. |
| BreadthFirst.Expand | algo/graphs/bfs.py:12-18 | One round turns exactly the first vertex of the queue black. |
| BreadthFirst.PrintPath | algo/graphs/bfs.py:20-27 | Prints the names of a walk from start to end, no longer than any, or that there is none, exactly when there is none. |
| ColoringMarks.NegColor | algo/graphs/pro-wrestlers.py:12-16 | The other of the two colours. |
| ColoringMarks.PaintKeeps | algo/graphs/pro-wrestlers.py:26-31 | Painting without a clash keeps the search and, where edges are mutual, the colouring proper; repainting then changes nothing. |
| ColoringMarks.PutBack | algo/graphs/pro-wrestlers.py:27-31 | What a passed vertex puts back stands in the queue already, so the distance to the first unpassed one stays. |
| ColoringMarks.FinishStep | algo/graphs/pro-wrestlers.py:24-32 | A round has fewer unpassed vertices, or changes no mark. |
| ColoringMarks.WalkTellsColor | algo/graphs/pro-wrestlers.py:18-20 | In a two-colouring the parity of a walk tells the colour of its end. |
| ColoringMarks.ClashRefutes | algo/graphs/pro-wrestlers.py:28-29 | A clash shows that what start reaches has no two-colouring, on every graph. |
| ColoringMarks.SearchColors | algo/graphs/pro-wrestlers.py:21-33 | With the queue empty exactly what start reaches is coloured and passed; the colouring is proper if and only if there is a two-colouring at all, and always where edges are mutual. |
| ColoringMarks.LoopRefutes | algo/graphs/pro-wrestlers.py:18-20 | At a loop no colouring is proper. |
| WrestlerColoring.BfsColor | algo/graphs/pro-wrestlers.py:21-33 | On every graph with all vertices grey and unpassed it ends, and False is right. True is right if and only if the colouring it leaves is proper, and it is where edges are mutual. A start that is its only rival gets True. |
| WrestlerColoring.Round | algo/graphs/pro-wrestlers.py:25-32 | A round makes the pair of unpassed vertices and queue distance to the first of them smaller, or answers False rightly. |
| WrestlerColoring.HasColor | algo/graphs/pro-wrestlers.py:28 | Whether some neighbour has the colour. |
| DepthFirstMarks.DiscoverKeeps | algo/graphs/find-simple-paths.py:17-19 | Beginning a visit keeps stack, times, edges and path pointers in order. |
| DepthFirstMarks.FinishKeeps | algo/graphs/find-simple-paths.py:31-33 | Ending it keeps every edge from a black vertex leading to one finished before. |
| DepthFirstMarks.BackEdge | algo/graphs/find-simple-paths.py:23-24 | A grey successor closes a cycle. |
| DepthFirstMarks.FinishFalls | algo/graphs/find-simple-paths.py:31-33 | Finish times fall along every walk from a black vertex. |
| DepthFirstMarks.BlackIsAcyclic | algo/graphs/find-simple-paths.py:14-35 | No black vertex leads to a cycle. |
| DepthFirstMarks.NoCycleAtAll | algo/graphs/find-simple-paths.py:6-12 | When the nodes are all vertices, none leads to a cycle if and only if there is no cycle. |
| DepthFirstMarks.FinishIsOrder | algo/graphs/find-simple-paths.py:38-41 | Sorted by finish time, the head of every edge comes before its tail. |
| DagCheck.DepthFirst.DfsVisit | algo/graphs/find-simple-paths.py:14-35 | False only if the vertex leads to a cycle; else it and all it leads to are black, and no vertex changes that was not white. |
| DagCheck.DepthFirst.Look | algo/graphs/find-simple-paths.py:22-29 | The same for one successor. |
| DagCheck.DepthFirst.DfsCheckDag | algo/graphs/find-simple-paths.py:6-12 | True if and only if no node leads to a cycle; then every edge leads to a vertex finished before. |
| DagCheck.DepthFirst.TopoSort | algo/graphs/find-simple-paths.py:38-41 | None if and only if there is a cycle to be reached; else the nodes, heads before tails. |
| Sorting.Sorted | algo/graphs/find-simple-paths.py:40 | The library sort: a permutation in order of the key. |
| KahnSort.RemainingWithout | algo/graphs/topo-sorting.py:22-24 | Taking a vertex away takes exactly its edges away. |
| KahnSort.CountEdges | algo/graphs/topo-sorting.py:6-12 | Every counter is the number of edges into its vertex, repeated ones counted. |
| KahnSort.FirstQueue | algo/graphs/topo-sorting.py:14-17 | The queue begins with exactly the vertices without predecessors. |
| KahnSort.TakeEdge | algo/graphs/topo-sorting.py:23-26 | A counter about to be lowered is positive; its vertex is queued when it falls to zero, once. |
| KahnSort.PrintKeeps | algo/graphs/topo-sorting.py:20-21 | A vertex is printed after all its predecessors. |
| KahnSort.PrintedIsAcyclic | algo/graphs/topo-sorting.py:19-26 | No cycle reaches a printed vertex. |
| KahnSort.BackedIsAfterCycle | algo/graphs/topo-sorting.py:19-26 | Going back among vertices left out, some vertex comes twice: a cycle reaches each of them. |
| KahnSort.SortingEnds | algo/graphs/topo-sorting.py:19-26 | With the queue empty, printed are exactly the vertices that no cycle reaches. |
| KahnSort.AllPrinted | algo/graphs/topo-sorting.py:5-26 | All vertices are printed if and only if the graph has no cycle. |
| KahnSort.TopoSort | algo/graphs/topo-sorting.py:5-26 | Each vertex at most once, after all its predecessors, and exactly those that no cycle reaches. |
| OptimalBst.BstSplit | algo/dyn-prog/optimal-bst.py:24-26 | The root of a search tree splits its keys into two stretches. |
| OptimalBst.CostDeeper | algo/dyn-prog/optimal-bst.py:23-26 | One level deeper a tree costs its weight more. |
| OptimalBst.NoTreeIsCheaper | algo/dyn-prog/optimal-bst.py:19-29 | No search tree on the keys costs less than the recurrence gives. |
| OptimalBst.BestTreeAttains | algo/dyn-prog/optimal-bst.py:41-53 | The tree read off the best roots is a search tree and costs just that. |
| OptimalBst.OptIsLeastCost | algo/dyn-prog/optimal-bst.py:8-31 | The recurrence gives the least cost over all search trees: some tree costs it and none less. |
| OptimalBst.OptimalBst | algo/dyn-prog/optimal-bst.py:8-31 | Every cell of e is the least cost over all search trees on its keys, and of root the first root that gives it. |
| OptimalBst.FillCell | algo/dyn-prog/optimal-bst.py:20-29 | Trying all roots finishes the cell and leaves the others. |
| OptimalBst.TryRoot | algo/dyn-prog/optimal-bst.py:24-29 | After each root the cell holds the best so far. |
| OptimalBst.DescribeTells | algo/dyn-prog/optimal-bst.py:41-53 | The printed lines determine the tree. |
| OptimalBst.LinesTell | algo/dyn-prog/optimal-bst.py:41-53 | A line says left or right child of a key if and only if the item is on top of that subtree of the key's node. |
| OptimalBst.ConstructOptimalBst | algo/dyn-prog/optimal-bst.py:41-53 | Prints the tree of least cost: a line for its root and one for every child, and no other. |
| Lcs.SubIsPicked | algo/dyn-prog/lcs.py:6-24 | A subsequence can be picked at rising positions. |
| Lcs.PickedIsSub | algo/dyn-prog/lcs.py:6-24 | What is picked at rising positions is a subsequence. |
| Lcs.NoLonger | algo/dyn-prog/lcs.py:12-22 | No common subsequence is longer than the recurrence gives. |
| Lcs.CollectedIsLongest | algo/dyn-prog/lcs.py:59-68 | Following the directions collects a common subsequence that none exceeds. |
| Lcs.FindLcs | algo/dyn-prog/lcs.py:6-24 | Both tables are right, and the last row and column, which index minus one reads, stay zero. |
| Lcs.FillCell | algo/dyn-prog/lcs.py:14-22 | One cell from its three neighbours, read through index minus one at the borders. |
| Lcs.CornerIsLongest | algo/dyn-prog/lcs.py:6-24 | The corner is the greatest length over all common subsequences. |
| Lcs.PrintLcs | algo/dyn-prog/lcs.py:59-68 | Prints what the directions collect. |
| Lcs.PrintLcsCTable | algo/dyn-prog/lcs.py:70-80 | Prints the same from the lengths alone. |
| Lcs.FindLcsMemo | algo/dyn-prog/lcs.py:30-36 | The memoised length is the greatest length of a common subsequence. |
| Lcs.FindLcsMemoAux | algo/dyn-prog/lcs.py:38-56 | Every memo entry stays zero or right, though zeros are computed anew. |
| Lcs.SortedIsSub | algo/dyn-prog/lcs.py:82-85 | A non-decreasing selection of members of a sorted sequence is a subsequence of it. |
| Lcs.CommonWithSorted | algo/dyn-prog/lcs.py:82-85 | A subsequence of x is one of sorted x if and only if it is non-decreasing. |
| Lcs.FindLongestMonot | algo/dyn-prog/lcs.py:82-85 | Prints a non-decreasing subsequence of x that none exceeds. |
| Sattolo.Permute | algo/randoms/permute_without_id.cpp:12-15 | The loop on the array is the sequence of swaps. |
| Sattolo.MovesTell | algo/randoms/permute_without_id.cpp:12-15 | What is moved where depends on the choices only, not on the elements. |
| Sattolo.SwapJoins | algo/randoms/permute_without_id.cpp:14 | A swap joins the cycles of its two positions. |
| Sattolo.CyclesAfter | algo/randoms/permute_without_id.cpp:12-15 | Before the step i every cycle has exactly one member from i on. |
| Sattolo.OneCycle | algo/randoms/permute_without_id.cpp:12-15 | For all choices the loop leaves one single cycle. |
| Sattolo.NoFixedPoint | algo/randoms/permute_without_id.cpp:12-15 | No element of two or more stays where it was. |
| Sattolo.OnlyOneWay | algo/randoms/permute_without_id.cpp:12-15 | Different choices give different permutations. |
| Sattolo.ExactlyTheSingleCycles | algo/randoms/permute_without_id.cpp:12-15 | A permutation is reached by some choices if and only if it is one single cycle. |
| LispyReader.LvalRead | lisp-c/ch10/qexpr.c:112-131 | The tree of a program as a value, without brackets and anchors; a tree with none of the tags is no value. |
| LispyReader.LvalPrint | lisp-c/ch10/qexpr.c:146-154 | A value as text. |
| LispyReader.LvalExprPrint | lisp-c/ch10/qexpr.c:135-144 | The cells in brackets, with a blank between any two. |
| LispyReader.NumReads | lisp-c/ch10/qexpr.c:98-103 | The text of every number is read as that number. |
| LispyReader.PrintedReads | lisp-c/ch10/qexpr.c:112-154 | A printed value anywhere in a text, with no digit behind it, is read as one expression up to its end, and its tree as that value. |
| LispyReader.PrintedIsRead | lisp-c/ch10/qexpr.c:112-154 | For all numbers of 64 bits, all symbols of the grammar and all lists of such, in any nesting: what is printed is a program, and reading it gives the value back as its only member. |
| LispyValues.Eval | lisp-c/ch10/qexpr.c:315-318 | Evaluation as meant ends, and the result is never larger than the argument. |
| LispyValues.Applied | lisp-c/ch10/qexpr.c:292-313 | The same for an evaluated list. |
| LispyValues.EvalGivesValue | lisp-c/ch10/qexpr.c:292-318 | A result is never a non-empty S-expression. |
| LispyValues.EvalTwice | lisp-c/ch10/qexpr.c:315-318 | Evaluating a result again changes nothing. |
| LispyValues.QuotientTruncates | lisp-c/ch10/qexpr.c:271 | Division rounds towards zero and takes its sign from the operands. |
| LispyValues.FoldTotals | lisp-c/ch10/qexpr.c:260-264 | Addition adds all arguments, subtraction takes the others from the first. |
| LispyValues.FoldFails | lisp-c/ch10/qexpr.c:266-272 | An operator fails if and only if it divides and some divisor is zero. |
| LispyMeaning.EvalMeans | lisp-c/ch10/qexpr.c:292-318 | The value of an expression is the only one that its members' values allow: the leftmost error, a lone member, or what the function named first makes of the others. |
| LispyMeaning.BuiltinMakes | lisp-c/ch10/qexpr.c:177-290 | What each function makes: the first cell, all others, all cells of all lists in their places, the value of a list, a number, or the error called for. |
| LispyMeaning.CallComputes | lisp-c/ch10/qexpr.c:246-290 | An operator called with numbers is defined as performed, and gives the sum, the product, the first less the sum of the others or its negation, the quotients in turn by the law of remainders, a division by zero, or for a name of several operators the first number. |
| LispyMeaning.OneQuotient | lisp-c/ch10/qexpr.c:271 | The law of remainders determines the quotient. |
| LispyMeaning.OperatorNames | lisp-c/ch10/qexpr.c:287 | Eleven names are found in the list of operators, the empty one among them. |
| LispyCoded.PopExactly | lisp-c/ch10/qexpr.c:161-169 | The move of a pop stays inside its array if and only if it is the first cell that is taken, and then leaves the others in order. |
| LispyCoded.EvalExactly | lisp-c/ch10/qexpr.c:292-318 | For every expression, evaluation as performed is defined if and only if the expression is tame: no head is taken of a longer list, and no list has its leftmost error behind its first cell. Then it gives the value it is meant to give. |
| LispyCoded.CodedGivesValue | lisp-c/ch10/qexpr.c:315-318 | A result of evaluation as performed is a value no larger than the argument, and evaluating it again changes nothing. |
| LispyCoded.CodedErrorWins | lisp-c/ch10/qexpr.c:297-299 | The leftmost error is the result when it is the first member; behind it, taking it out has no meaning. |
| LispyCoded.HeadOfTwo | lisp-c/ch10/qexpr.c:177-188 | The head of a list of two has no meaning as performed. |
| LispyCoded.ErrorBehind | lisp-c/ch10/qexpr.c:297-299 | Nor has a sum whose last member divides by zero. |
| LispyCoded.CodedEvalUndoesList | lisp-c/ch10/qexpr.c:203-219 | As performed, evaluating a list of expressions is evaluating the expressions, if and only if there are any and the first is no error, or one has no meaning itself. |
| LispyCoded.CodedJoinHeadTail | lisp-c/ch10/qexpr.c:177-244 | As performed, joining head and tail gives a Q-expression back if and only if it has one cell. |
| LispyForecast.ForeseeRight | lisp-c/ch10/qexpr.c:246-318 | Without evaluating: where a kind is foreseen evaluation as performed is defined and gives a value of that kind, with its length or name; where none is, it has no meaning. Left open are divisions by computed numbers and eval of computed lists. |
| LispyForecast.DirectExactly | lisp-c/ch10/qexpr.c:246-318 | For expressions that name neither division nor eval outside quotes nothing is left open: evaluation as performed is defined if and only if a kind is foreseen. |
| Lispy.Expr.Add | lisp-c/ch10/qexpr.c:105-110 | Appends a cell. |
| Lispy.Expr.Pop | lisp-c/ch10/qexpr.c:161-169 | Takes one cell out by the move as performed, or has no meaning. |
| Lispy.Expr.Join | lisp-c/ch10/qexpr.c:221-228 | Moves all cells of the other over, in order. |
| Lispy.BuiltinHead | lisp-c/ch10/qexpr.c:177-188 | The first cell alone after popping the second until one is left, the error the arguments call for, or no meaning. |
| Lispy.BuiltinTail | lisp-c/ch10/qexpr.c:190-201 | All cells but the first, or the error. |
| Lispy.BuiltinList | lisp-c/ch10/qexpr.c:203-206 | The arguments, quoted. |
| Lispy.BuiltinEval | lisp-c/ch10/qexpr.c:210-219 | The quoted cells evaluated as performed, on something strictly smaller, or the error. |
| Lispy.BuiltinJoin | lisp-c/ch10/qexpr.c:230-244 | The cells of all arguments in order, or the error. |
| Lispy.BuiltinOp | lisp-c/ch10/qexpr.c:246-279 | The operator applied from left to right, or the error; what that computes is stated by CallComputes. |
| Lispy.CallBuiltin | lisp-c/ch10/qexpr.c:281-290 | The function by its name, as performed; operators are found by substring. |
| Lispy.EvalCells | lisp-c/ch10/qexpr.c:293-295 | Every cell is replaced by its result, in place, unless some evaluation has no meaning. |
| Lispy.LvalEvalSexpr | lisp-c/ch10/qexpr.c:292-313 | The editing of the cells yields what evaluation of the list as performed gives. |
| Lispy.LvalEval | lisp-c/ch10/qexpr.c:315-318 | The evaluator ends; it gives the value if and only if the expression is tame, and otherwise has no meaning. What it gives is described by the values of the members. |

## Left out

- MpcSoundness.OptimiseSound: its conditions are sufficient for all runs at once, not necessary for each. What a drop leaves alone must rewind when it fails; a tree sequence into which something is merged must have at most two leaves, or two that are sure to yield a tree, or a root anyway; a merged group of three or more must have one sure part. The exact conditions are given rule by rule and run by run in DropPassExactly, DropLiftExactly, RegroupExactly and TreeMergeExactly.
- MpcNodes.OptimiseUnretained: nodes that fall out of the tree are not freed, and the lists of destructors are left out. Where it has no meaning nothing is said of the nodes but that they are a tree.
- MpcInput.Input.ParseRun: says nothing of the input after undefined behaviour or when the fuel runs out. Error messages and their merging, and the release of results, are not modelled.
- MpcPool.Pool.Realloc: the C heap always hands out a new block.
- MpcTraversal.Traversal.Next: the linked frames are values; freeing them is not modelled.
- MpcRegex.BuildSequence: reading the text of an expression, the expansion of a bracket into its characters and counted repeats in the slice theorem and in matching are left out (the meaning of a count is in MpcMeaning); a set is given by its characters.
- Lispy.LvalEvalSexpr: one level of cells is edited in place, nested expressions are values. After undefined behaviour nothing is said.
- BreadthFirst.BreadthFirstSearch: vertices have names of their own; the set of vertices it speaks of may be any that successors do not leave, such as those reached from the start, so that others need no list of successors.
- DagCheck.DepthFirst.DfsCheckDag: nodes come in any order, not only by name.
- KahnSort.TopoSort: a vertex is its name; all successors are nodes, as the source would fail with a missing key otherwise.
- OptimalBst.OptimalBst: costs are real numbers, without rounding; the counter of iterations is left out.
- Reading from files and pipes, printing, grammars given as text, floats and deletion of parsers in mpc.
- Characters are compared as unsigned, where C may compare plain characters as signed.
- Overflow in the arithmetic of the evaluator, and exhausted memory.
- Sorting, matrix chains, rod cutting, majority vote and the other graph programs.
- The JavaScript, libuv and web examples.
