# Verified models of the algorithmic cores

This project models the self-contained algorithms of a collection of small programs and proves what
they promise. Every model follows its source branch by branch: code that changes linked nodes, arrays
or fields is a class or a method with loops, proved against functions or predicates on the values it
stands for.

- **Red-black trees** (`TreeShape.dfy`, `RedBlackTree.dfy`): the `RB_*` macros on heap nodes with parent
  pointers. A ghost tree and a ghost path to the current position describe the heap; removal works with
  one position that is short of one black node. Nodes visited and rounds of repair are counted against the
  height. One instantiation is modelled, over an abstract key type and an abstract total order.
- **Top-down splay trees** (`SplayShapes.dfy`, `SplayCost.dfy`, `TopDownSplay.dfy`): both loops on linked
  nodes yield one and the same recursively defined tree; insertion and deletion on it are those of sets.
  The amortized logarithmic cost that the comments claim is proved over every run of operations, with the
  logarithm of the number of nodes and insertions.
- **Boolean code by backpatching** (`Backpatching.dfy`, `ConditionParser.dfy`, `ConditionCompiler.dfy`): quads
  whose target field links the pending jumps until they are patched. A small machine runs the quads; from
  the words of a condition over the stack machine of the parser to the quads, the code is proved to take
  the exit that the value of the condition selects.
- **Spreadsheet formulas** (`Formulas.dfy`, `FormulaText.dfy`, `SheetEdits.dfy`, `Spreadsheet.dfy`,
  `FormulaLaws.dfy`): the recursive evaluator with a cache per cell, on arbitrary reference graphs. The
  meaning of a sheet is defined without the cache, by recursion where it ends and as Invalid where it does
  not. An edit makes only its own cell dirty; runs of edits and reads from any state are proved to show what
  the sheet means in which clean cells hold their cached values. Formulas are unambiguous, and what cells
  show is stated for texts written out.
- **Closest pair** (`ClosestPair.dfy`): divide and conquer over two buffers that change roles, the strip
  scan with its bound of seven, and the brute-force search.
- **Longest non-decreasing subsequence** (`LongestSubsequence.dfy`), **0/1 knapsack** (`Knapsack.dfy`) and
  **radix, merge and insertion sort** (`Words.dfy`, `Sorting.dfy`, and `Sequences.dfy`, which the
  closest-pair model shares): optimality with the witness that the program reads back, and stability.
- **A falling-block game** (`Pentris.dfy`, `PieceTable.dfy`, `PentrisGame.dfy`): the board, the rules as
  steps of a state machine that the events determine, and the balance between frozen pieces, occupied
  squares and score.
- **XML attributes** (`XmlText.dfy`, `XmlNumbers.dfy`, `XmlAttribute.dfy`): the printer, the parser, what
  numeric references mean, and when exactly printing and parsing undo each other
  (sections 4.1 and 4.6 of XML 1.0 define the references concerned).

Where the code and its comments differ, the code is followed:

- The longest-subsequence program sets its static `lastIndex` only when a chain of two elements is found.
  For a falling sequence it uses what an earlier call left behind; `LIS.GetLISLen` states exactly when a
  call gets through. A negative first element does no harm, a later one makes it fail.
- The knapsack program takes the first item wherever it fits and never updates capacity 0, so its
  table, capacity 0 included, is right everywhere exactly for the items that `RightExactlyIfFair` names.
  `run` returns entries of positive capacities only: weights 5 and 0 with values 0 and 3 are not fair, and
  yet all its answers are right. `RightForAllValues` says which weights are safe above capacity 0.
- The grammar of conditions gives `&` and `|` no precedence, and `!` applies to everything after it.
- The attribute printer passes `&#x` through for values that contain it. Such a value does not come back
  from the printed attribute, whatever text follows: another value is read, or reading runs past the quote.
- Editing a cell leaves the caches of the cells that refer to it as they are, and `recalculate()` returns at
  once, so a cell can show what its formula meant before the edit; `Spreadsheet.StaleExample` is a run that
  does. `EditSafeExactly` gives the condition: whatever is written to a cell, all reads are right afterwards
  if and only if no clean cell leads to it. The one case left out is that all clean cells that lead to it show
  Invalid: they may do so for other reasons than the edited cell, and for them one direction remains, that of
  `SheetEdits.SemElsewhere`.
- The longest-subsequence program may be given one array for the sequence and the answer, which it then
  overwrites while it reads it; `OverlaidExactly` says when the answer survives.

Conventions: memory allocation does not fail. Machine integers are unbounded except where the
source depends on their width: the words of the sorting programs are 32-bit integers, and the
entity numbers of the XML parser wrap around. Distances between points are compared by their squares,
over integer coordinates. Cell values are real numbers. Random draws, the orders that
`Arrays.sort` leaves, `toDouble` and the character class of letters and digits are parameters. A
character of an XML text stands for a byte. Characters from 256 on behave like letters outside ASCII
and do not occur in the source.

`Common.dfy` holds what several models share. `dafny verify dfyconfig.toml` checks the whole project.

## Model

| member | source | states |
|---|---|---|
| `RedBlackTree.RBTree.Insert` | vimprojects/collectedsrc/tree.h:595-623 | an equal node is returned and the tree left alone, or exactly the new node is put at its place in the order and every red-black, parent-pointer and search-order invariant holds again; the nodes visited and the rounds of the repair are at most twice the height of the tree before |
| `RedBlackTree.RBTree.InsertAt` | vimprojects/collectedsrc/tree.h:612-622 | a new leaf at the place the search ended: the in-order sequence gains exactly this node there, and the tree is valid again |
| `RedBlackTree.RBTree.SearchPlace` | vimprojects/collectedsrc/tree.h:599-611 | the walk of the insertion ends at an equal node or at the only leaf where the key belongs, after no more nodes than the tree is high |
| `RedBlackTree.RBTree.InsertColor` | vimprojects/collectedsrc/tree.h:405-447 | the recolour and rotate loop ends with black root, no red below red and equal black heights, the order of the nodes unchanged, after no more rounds than the new node is deep |
| `RedBlackTree.RBTree.InsertFixLeft` | vimprojects/collectedsrc/tree.h:412-428 | one round below a left child: either the red uncle moves the fault two levels up, or one or two rotations end it |
| `RedBlackTree.RBTree.InsertFixRight` | vimprojects/collectedsrc/tree.h:428-444 | the mirrored round |
| `RedBlackTree.RBTree.RotateLeft` | vimprojects/collectedsrc/tree.h:340-358 | a left rotation turns the subtree and repairs all parent pointers, the rest of the tree and the order untouched |
| `RedBlackTree.RBTree.RotateRight` | vimprojects/collectedsrc/tree.h:360-378 | the mirrored rotation |
| `TreeShape.FlipSound` | vimprojects/collectedsrc/tree.h:414-419 | after recolouring, the only possible red pair is two levels higher |
| `TreeShape.LiftLeftSound` | vimprojects/collectedsrc/tree.h:426-427 | with a black uncle the rotation ends the repair: the subtree is sound and fits where it stood |
| `TreeShape.LiftRightSound` | vimprojects/collectedsrc/tree.h:442-443 | the mirrored case |
| `RedBlackTree.RBTree.Remove` | vimprojects/collectedsrc/tree.h:527-592 | any node of a valid tree is unlinked: the in-order sequence loses exactly that node, and the tree is valid again; the nodes on the way to the successor and the rounds of the repair are at most twice the height of the tree before |
| `RedBlackTree.RBTree.RemoveAt` | vimprojects/collectedsrc/tree.h:527-592 | the same for a node given by its place in the order |
| `RedBlackTree.RBTree.Detach` | vimprojects/collectedsrc/tree.h:530-587 | the node is out of the tree, by its only child or by its successor taking its place and colour; what is left has all its parent pointers and is short of at most one black node at the child position |
| `RedBlackTree.RBTree.DetachInner` | vimprojects/collectedsrc/tree.h:537-574 | a node with two children: the successor moves into its place |
| `RedBlackTree.RBTree.DetachOuter` | vimprojects/collectedsrc/tree.h:532-535 | a node with at most one child is bypassed |
| `RedBlackTree.RBTree.Unlink` | vimprojects/collectedsrc/tree.h:576-587 | child and parent are linked past the node; nothing else changes |
| `RedBlackTree.RBTree.UnlinkSuccessor` | vimprojects/collectedsrc/tree.h:541-555 | the successor leaves its place, and its right child takes it |
| `RedBlackTree.RBTree.MoveUp` | vimprojects/collectedsrc/tree.h:556-567 | the successor takes over all four fields of the removed node, and all neighbours point to it |
| `RedBlackTree.RBTree.Successor` | vimprojects/collectedsrc/tree.h:537-540 | the walk to the left from the right child ends at the next node in order, after one node for each level |
| `RedBlackTree.RBTree.DetachAndRecolor` | vimprojects/collectedsrc/tree.h:588-591 | the repair is run exactly when a black node went missing |
| `TreeShape.UnlinkSound` | vimprojects/collectedsrc/tree.h:532-535 | removing a black node leaves one position short of one black node, removing a red one none |
| `TreeShape.SuccessorMoved` | vimprojects/collectedsrc/tree.h:556-567 | swapping the successor in keeps colours and black heights, and the order loses the removed node only |
| `RedBlackTree.RBTree.RemoveColor` | vimprojects/collectedsrc/tree.h:449-525 | from one position short of a black node the loop restores all colour invariants and keeps the order; it ends because the measure `Remaining` falls, also in the rounds where the depth does not, and that measure bounds the rounds |
| `RedBlackTree.RBTree.RemoveRound` | vimprojects/collectedsrc/tree.h:453-522 | one round mends the tree or moves the short position towards the root under the measure |
| `RedBlackTree.RBTree.RemoveFixLeft` | vimprojects/collectedsrc/tree.h:455-461 | a red sibling is rotated away, after which the sibling is black |
| `RedBlackTree.RBTree.RemoveBlackSiblingLeft` | vimprojects/collectedsrc/tree.h:462-487 | a black sibling: recolour and go up, or rotate and finish |
| `RedBlackTree.RBTree.RemoveFixRight` | vimprojects/collectedsrc/tree.h:488-494 | the mirrored case |
| `RedBlackTree.RBTree.RemoveBlackSiblingRight` | vimprojects/collectedsrc/tree.h:495-520 | the mirrored case |
| `TreeShape.SiblingExists` | vimprojects/collectedsrc/tree.h:456-457 | at a short position the sibling is never NULL, and a red sibling has two children |
| `TreeShape.RedSibling` | vimprojects/collectedsrc/tree.h:457-461 | rotating a red sibling away keeps the position short, makes its parent red, and lowers the measure |
| `TreeShape.PassUp` | vimprojects/collectedsrc/tree.h:462-468 | recolouring a black sibling without red children passes the shortage to the parent |
| `TreeShape.MendSound` | vimprojects/collectedsrc/tree.h:480-486 | with a red far nephew the final rotation pays the shortage back |
| `TreeShape.FarRedShort` | vimprojects/collectedsrc/tree.h:470-479 | with only the near nephew red, the inner rotation makes the far one red and keeps the shortage |
| `TreeShape.HeightBound` | vimprojects/collectedsrc/tree.h:51-59 | 2^height is at most (n + 1)^2, which is a height of at most 2 lg(n + 1) |
| `TreeShape.StepsBound` | vimprojects/collectedsrc/tree.h:58-59 | what is within twice the height of a valid tree of n nodes is within 4 lg(n + 1), stated with powers of two: with the bounds of the operations this makes each of them logarithmic |
| `TreeShape.DepthHeight` | vimprojects/collectedsrc/tree.h:58-59 | a node with what is below it reaches no deeper than the tree is high |
| `RedBlackTree.RBTree.NodeFacts` | vimprojects/collectedsrc/tree.h:51-57 | validity in terms of the fields of any one node: children point back, the parent points down, a red node has black children, and the root is black |
| `TreeShape.BlackHeightBounds` | vimprojects/collectedsrc/tree.h:51-57 | 2^(black height) is at most n + 1, and the height at most twice the black height, one more at a red root |
| `RedBlackTree.RBTree.Find` | vimprojects/collectedsrc/tree.h:625-641 | the node with an equal key if there is one, and NULL only if there is none; no more nodes visited than the tree is high |
| `RedBlackTree.RBTree.NFind` | vimprojects/collectedsrc/tree.h:643-662 | the first node in order that is not below the key, or NULL if all are below it; no more nodes visited than the tree is high |
| `RedBlackTree.RBTree.Next` | vimprojects/collectedsrc/tree.h:664-684 | by child and parent pointers alone, from the node at place i to the one at i + 1, or NULL at the end; no more nodes visited than the tree is high |
| `RedBlackTree.RBTree.Prev` | vimprojects/collectedsrc/tree.h:686-706 | the node before, or NULL at the beginning, likewise |
| `RedBlackTree.RBTree.MinMax` | vimprojects/collectedsrc/tree.h:708-721 | the first or the last node in order, NULL for an empty tree, likewise |
| `RedBlackTree.RBTree.Foreach` | vimprojects/collectedsrc/tree.h:735-738 | every node exactly once, in the order of the keys |
| `SplayShapes.SplitKeeps` | vimprojects/collectedsrc/top-down-splay.c:56-121 | splaying keeps the in-order sequence of the nodes, and with it the set of items, uniqueness and search order |
| `SplayShapes.SplitRoot` | vimprojects/collectedsrc/top-down-splay.c:24-30 | the new root is the last node that a binary search visits, item present or absent |
| `SplayShapes.SplitSeparates` | vimprojects/collectedsrc/top-down-splay.c:116-119 | in a search tree everything left of the new root is below the item, everything right of it above |
| `SplayShapes.FoundAtRoot` | vimprojects/collectedsrc/top-down-splay.c:24-30 | the root holds the item exactly if the tree does |
| `SplayShapes.InsertedMeaning` | vimprojects/collectedsrc/top-down-splay.c:183-229 | insertion adds exactly the new node if the item is new, changes nothing but the shape otherwise, and has the item at the root |
| `SplayShapes.DeletedMeaning` | vimprojects/collectedsrc/top-down-splay.c:231-257 | deletion removes exactly the one node with the item, if there is one, and keeps a search tree |
| `SplayShapes.LastAtRoot` | vimprojects/collectedsrc/top-down-splay.c:249-250 | splaying for an item above the whole tree leaves a root without right child, so nothing is lost when a right child is attached |
| `SplayCost.SplitPaid` | vimprojects/collectedsrc/top-down-splay.c:7-14 | the nodes visited by a splay and three times the change of potential are at most 6 lg n + 3, and + 2 unless the first step is a link without a rotation |
| `SplayCost.OpPaid` | vimprojects/collectedsrc/top-down-splay.c:7-14 | the same for any operation on a tree that has at most n nodes before and after it, with 15 lg n + 6 |
| `SplayCost.RunPaid` | vimprojects/collectedsrc/tree.h:47-49 | over every run, the cost is at most three times the initial potential and 15 lg N + 6 for every operation, where N bounds the nodes of the first tree and the insertions of the run together |
| `SplayCost.RunFromEmpty` | vimprojects/collectedsrc/tree.h:47-49 | m operations, n of them insertions, on an initially empty tree visit at most m (15 lg n + 6) nodes, whatever the order: amortized cost logarithmic in the size of the tree, not in the length of the run |
| `SplayCost.RunFromTree` | vimprojects/collectedsrc/top-down-splay.c:7-14 | m operations on any tree of n nodes visit at most 3 n lg n + m (15 lg(n + i) + 6) nodes, i being the number of insertions |
| `SplayCost.PotentialBound` | vimprojects/collectedsrc/top-down-splay.c:7-14 | no tree of n nodes, however unbalanced, starts with more potential than n lg n |
| `SplayCost.LinkLeftPaid` | vimprojects/collectedsrc/top-down-splay.c:85-87 | a single link step is paid for by the step after it, a rotation or a link to the other side |
| `SplayCost.TurnRightPaid` | vimprojects/collectedsrc/top-down-splay.c:74-87 | a rotation with its link pays for itself: two parts of the tree cannot both have the rank of the whole |
| `TopDownSplay.Splay` | vimprojects/collectedsrc/top-down-splay.c:56-121 | on linked nodes the loop yields exactly the splayed tree, and visits the nodes of a binary search |
| `TopDownSplay.SedgewickizedSplay` | vimprojects/collectedsrc/top-down-splay.c:123-181 | the other variant yields the identical tree, node by node |
| `TopDownSplay.StepLeft` | vimprojects/collectedsrc/top-down-splay.c:68-88 | one turn of the loop to the left: what is built so far and what is left still make up the splayed tree |
| `TopDownSplay.SedgewickStepLeft` | vimprojects/collectedsrc/top-down-splay.c:137-153 | the same for the other variant |
| `TopDownSplay.Assemble` | vimprojects/collectedsrc/top-down-splay.c:116-120 | the four assignments put the three trees together |
| `TopDownSplay.DropRoot` | vimprojects/collectedsrc/top-down-splay.c:241-251 | the root goes, the left tree splayed and the right tree attached to it |
| `TopDownSplay.Program.Insert` | vimprojects/collectedsrc/top-down-splay.c:183-229 | the linked tree after insertion is the inserted tree, a fresh node was used, `size` is the number of nodes |
| `TopDownSplay.Program.Delete` | vimprojects/collectedsrc/top-down-splay.c:231-257 | the linked tree after deletion is the tree without the item, `size` is the number of nodes |
| `CreateMidcode.CodeGen.Translate` | compiler/src/imp/CreateMidcode_imp.cpp:238-305 | for every condition: once its true and false lists are patched to T and F, a run from its first quad reaches T if the condition is true and F otherwise, without leaving the quads made for it, and never the other exit; the stacks and all older quads are as before |
| `CreateMidcode.CodeGen.Close` | compiler/src/imp/CreateMidcode_imp.cpp:238-305 | the two lists on top are taken off and sent to T and F: the code then runs to the exit that the value selects, and not to the other one |
| `CreateMidcode.CodeGen.Generate` | compiler/src/imp/CreateMidcode_imp.cpp:238-305 | all actions for a condition add its quads and one entry to each stack, touch nothing older, and what they add decides the condition with two disjoint, -1-terminated lists of open jumps |
| `CreateMidcode.CodeGen.AndRule` | compiler/src/imp/CreateMidcode_imp.cpp:245-250 | production 25: the left true list is sent to the mark, the false lists are joined |
| `CreateMidcode.CodeGen.OrRule` | compiler/src/imp/CreateMidcode_imp.cpp:251-256 | production 26: the left false list is sent to the mark, the true lists are joined |
| `CreateMidcode.CodeGen.NotRule` | compiler/src/imp/CreateMidcode_imp.cpp:257-260 | production 20: the two lists change places |
| `CreateMidcode.CodeGen.F` | compiler/src/imp/CreateMidcode_imp.cpp:280-305 | production 13: two quads with open targets, each the only entry of its list |
| `CreateMidcode.CodeGen.Merge` | compiler/src/imp/CreateMidcode_imp.cpp:636-651 | the second list is followed to its end and the first hung on: one chain with the entries of both, every other quad unchanged |
| `CreateMidcode.CodeGen.MergeTop` | compiler/src/imp/CreateMidcode_imp.cpp:249-255 | popping both lists and merging them gives their union whichever operand is popped first |
| `CreateMidcode.CodeGen.Backpatch` | compiler/src/imp/CreateMidcode_imp.cpp:653-667 | every quad of the chain gets the target, and no other quad changes |
| `CreateMidcode.CodeGen.BothSides` | compiler/src/imp/SyntaxAnalysis_Imp.cpp:94-95 | operand, mark, operand: what the left operand added still decides it after the right one was translated |
| `Conditions.AndDecides` | compiler/src/imp/CreateMidcode_imp.cpp:245-250 | after the patch and the merge the quads of both sides decide the conjunction |
| `Conditions.OrDecides` | compiler/src/imp/CreateMidcode_imp.cpp:251-256 | the same for the disjunction |
| `Conditions.NotDecides` | compiler/src/imp/CreateMidcode_imp.cpp:257-260 | exchanged lists decide the negation |
| `Conditions.VarDecides` | compiler/src/imp/CreateMidcode_imp.cpp:294-299 | the two quads of a variable decide it |
| `Conditions.ChainJoin` | compiler/src/imp/CreateMidcode_imp.cpp:636-651 | two disjoint chains, the end of one set to the head of the other, are one chain |
| `Conditions.OneExit` | compiler/src/imp/CreateMidcode_imp.cpp:238-305 | a run of a stretch of quads leaves it at one place only |
| `ConditionGrammar.ParserActions` | compiler/src/imp/SyntaxAnalysis_Imp.cpp:71-110 | the actions listed production by production are those of a traversal of the expression, in the same order |
| `ConditionParser.ParsesCondition` | compiler/src/imp/SyntaxAnalysis_Imp.cpp:286-443 | the stack machine of the parser, with its marks X, its stack of productions and the mark for backpatching at R: from E before the words of any condition it reads exactly these words, leaves its stacks as they were below E, and performs exactly the actions that are proved right for the condition |
| `ConditionParser.FactorRun` | compiler/src/imp/SyntaxAnalysis_Imp.cpp:286-443 | the same for a factor: an identifier takes the operand stored for it, and parentheses add no action |
| `ConditionParser.RestRun` | compiler/src/imp/SyntaxAnalysis_Imp.cpp:354-379 | the same for what follows a factor: the operator is read, the quad marked, and the rule applied when the right operand is done |
| `ConditionCompiler.Compile` | compiler/src/imp/SyntaxAnalysis_Imp.cpp:286-443 | from words to quads: the parser is run over the words of any condition, the actions it calls for are performed one after the other, and the quads run to T or F as the value of the condition selects; stacks and older quads are as before |
| `ConditionCompiler.Perform` | compiler/src/imp/CreateMidcode_imp.cpp:238-305 | the actions for a condition, performed in a row on the stacks of the translator, add code that decides the condition and touch nothing older |
| `ConditionCompiler.BuiltActions` | compiler/src/imp/SyntaxAnalysis_Imp.cpp:354-377 | run on a stack of conditions, the actions for a condition leave exactly this condition on top, its marks used up |
| `ConditionCompiler.Restacked` | compiler/src/imp/CreateMidcode_imp.cpp:238-305 | a rule that replaces the pieces of code on top by one piece leaves the pieces below deciding what they decided |
| `ConditionGrammar.NoPrecedence` | compiler/src/imp/SyntaxAnalysis_Imp.cpp:73-95 | in any text without parentheses, of any length, the right operand of each & and | is everything behind it, and ! takes everything behind it |
| `Spreadsheet.Table.Value` | vimprojects/spreadsheet/cell.cpp:78-114 | whatever has been evaluated before and whatever is being evaluated, value() ends and is the meaning of the cell; each cell is evaluated at most once, only if it was dirty and the cell asked for leads to it, and with it everything it refers to |
| `Spreadsheet.Table.ReadAll` | vimprojects/spreadsheet/cell.cpp:78-114 | any cells read in any order, from any state: each gives its meaning on what the table shows, one read does not change what another gives, and right caches stay right |
| `Spreadsheet.Table.Read` | vimprojects/spreadsheet/cell.cpp:78-114 | a read from any state, stale caches included: the value is the meaning on the sheet in which every clean cell holds its cached value, and afterwards exactly the cells that the read cell leads to hold theirs |
| `Spreadsheet.Table.SetFormula` | vimprojects/spreadsheet/spreadsheet.cpp:117-128 | from any state: the text of one cell changes and only this cell becomes dirty, so that every other clean cell goes on showing its cached value |
| `Spreadsheet.Table.EditAndRead` | vimprojects/spreadsheet/spreadsheet.cpp:117-128 | an edit and then reads in any order, from any state: a clean cell gives its old value whatever its text means now; if the caches were right and no clean cell leads to the edited one, every cell gives the meaning of its text |
| `Spreadsheet.Table.Run` | vimprojects/spreadsheet/spreadsheet.cpp:117-128 | any run of edits and looks, from any state: the looks give exactly what the run over what is shown gives, and the table shows what that run ends with |
| `Spreadsheet.Table.EditSafeExactly` | vimprojects/spreadsheet/cell.cpp:29-34 | every look after every text written to a cell is right exactly if no clean cell leads to that cell; left out is only the case that all clean cells that lead to it show Invalid |
| `Spreadsheet.Table.RunsRight` | vimprojects/spreadsheet/spreadsheet.cpp:117-128 | with right caches, every look of a run is right if no edit is of a cell that a clean cell leads to at the time |
| `Spreadsheet.Table.SettledShown` | vimprojects/spreadsheet/cell.cpp:78-81 | the caches are right exactly if holding them leaves every meaning as it is |
| `Spreadsheet.StaleExample` | vimprojects/spreadsheet/cell.cpp:29-34 | A1 says =B1; it is looked at, 2 is written over the 1 in B1, and A1 is looked at again: on the table it gives 1 both times, while its text means 2 the second time |
| `Spreadsheet.Table.Refresh` | vimprojects/spreadsheet/cell.cpp:82-112 | the evaluation of a cell that has just been declared clean, by the kind of its text; afterwards everything it refers to is clean |
| `Spreadsheet.Table.RunFormula` | vimprojects/spreadsheet/cell.cpp:88-98 | a formula is evaluated with Invalid as the preliminary value, which is what a cyclic reference sees |
| `Spreadsheet.Table.EvalExpression` | vimprojects/spreadsheet/cell.cpp:150-177 | on the text of an expression the position ends just behind it, and the result is its left-associative value |
| `Spreadsheet.Table.AddTail` | vimprojects/spreadsheet/cell.cpp:153-176 | the loop over + and - folds the terms from the left |
| `Spreadsheet.Table.EvalTerm` | vimprojects/spreadsheet/cell.cpp:179-215 | the same for a term, division by zero giving Invalid |
| `Spreadsheet.Table.MultiplyTail` | vimprojects/spreadsheet/cell.cpp:182-214 | the loop over * and / folds the factors from the left |
| `Spreadsheet.Table.EvalFactor` | vimprojects/spreadsheet/cell.cpp:217-277 | the same for a factor with an optional minus |
| `Spreadsheet.Table.EvalAtom` | vimprojects/spreadsheet/cell.cpp:226-264 | the same for a parenthesis or a token |
| `Spreadsheet.Table.EvalToken` | vimprojects/spreadsheet/cell.cpp:235-264 | a cell location, which is what `Locations.LocationRead` and `LocationsShown` say, gives the value of that cell, or 0 if there is none; any other token its number or Invalid |
| `Spreadsheet.Combine` | vimprojects/spreadsheet/cell.cpp:160-174 | numbers are added or subtracted, anything else is Invalid |
| `Spreadsheet.CombineScaled` | vimprojects/spreadsheet/cell.cpp:191-212 | numbers are multiplied or divided, division by zero and anything else is Invalid |
| `Spreadsheet.Table.constructor` | vimprojects/spreadsheet/cell.cpp:78-81 | a sheet with all cells dirty is one whose cells have not been evaluated yet |
| `SheetMeaning.SemByCycles` | vimprojects/spreadsheet/cell.cpp:78-114 | a cell that can reach a reference cycle means Invalid, every other cell its plain recursive value |
| `SheetMeaning.SemFixpoint` | vimprojects/spreadsheet/cell.cpp:243-256 | the meaning of a cell is its content evaluated with the meanings of the cells it refers to, also on cyclic sheets |
| `SheetMeaning.WellFoundedIffAcyclic` | vimprojects/spreadsheet/cell.cpp:243-251 | the recursive meaning of a cell exists exactly if no cycle can be reached from it |
| `SheetMeaning.SelfReach` | vimprojects/spreadsheet/cell.cpp:82-91 | a cell that reaches itself means Invalid |
| `SheetEdits.RightForAllEdits` | vimprojects/spreadsheet/cell.cpp:29-34 | the exact condition for edits on the sheets alone: with right held values, all reads after all edits of a cell are right if and only if no cell that holds its value leads to it, unless all those that lead to it hold Invalid |
| `SheetEdits.NoticedExactly` | vimprojects/spreadsheet/cell.cpp:78-114 | a cell with a value other than Invalid means something else after some edit of another cell exactly if it leads to that cell |
| `SheetEdits.SemElsewhere` | vimprojects/spreadsheet/cell.cpp:78-114 | a cell that does not lead to the edited one means what it meant before |
| `SheetEdits.HeldThroughEdit` | vimprojects/spreadsheet/cell.cpp:29-34 | values that were right before an edit are right after it for the cells that do not notice it, and for no others |
| `SheetEdits.HoldingKeeps` | vimprojects/spreadsheet/cell.cpp:78-114 | caching is transparent: cells that hold what they mean change no meaning, on cyclic sheets either |
| `SheetEdits.ReadsCommute` | vimprojects/spreadsheet/cell.cpp:78-114 | two reads leave the same sheet in either order |
| `SheetEdits.RunRight` | vimprojects/spreadsheet/cell.cpp:78-114 | in a run whose edits touch nothing that is held, every read gives what the texts mean at the time |
| `SheetEdits.StaleInstance` | vimprojects/spreadsheet/cell.cpp:29-34 | the run that fails: look at A1, which says =B1, change B1 from 1 to 2, look at A1 again; the looks give 1 and 1, the texts mean 1 and 2 |
| `Formulas.Strict` | vimprojects/spreadsheet/cell.cpp:160-174 | an Invalid operand makes the whole expression Invalid |
| `FormulaText.FoldValue` | vimprojects/spreadsheet/cell.cpp:150-177 | the left-nested value of a sum is the fold over its terms from the left |
| `FormulaText.FoldScaleValue` | vimprojects/spreadsheet/cell.cpp:179-215 | the left-nested value of a product is the fold over its factors |
| `FormulaText.LeftToRight` | vimprojects/spreadsheet/cell.cpp:116-134 | the text of a sum is its first term followed by the others with their signs |
| `Locations.LocationRead` | vimprojects/spreadsheet/spreadsheet.cpp:130-133 | what the program shows as the location of a cell of the first 999 rows, the letter and the number of the row in decimal, is read as that cell, and with a small letter too |
| `Locations.LocationsShown` | vimprojects/spreadsheet/cell.cpp:237-246 | nothing else is read as a location: each one is what the program shows for some cell of the first 999 rows |
| `Unambiguous.OneFormula` | vimprojects/spreadsheet/cell.cpp:116-149 | the grammar is unambiguous: two formulas with one text are equal |
| `FormulaLaws.OneContent` | vimprojects/spreadsheet/cell.cpp:82-112 | the text of a cell determines its content, and so its meaning |
| `FormulaLaws.ReferenceShown` | vimprojects/spreadsheet/cell.cpp:243-254 | a cell whose text is an equals sign and the shown location of a cell shows what that cell shows, in every sheet |
| `FormulaLaws.OperatorsShown` | vimprojects/spreadsheet/cell.cpp:150-215 | for any two numerals: what cells with a sum, difference, product, quotient or negated numeral as their text show, in every sheet |
| `FormulaLaws.GroupingShown` | vimprojects/spreadsheet/cell.cpp:150-215 | for any three numerals: differences go from the left, products bind stronger than sums, parentheses come first |
| `FormulaLaws.SpacedFormula` | vimprojects/spreadsheet/cell.cpp:92 | spaces in a formula play no part, wherever they stand |
| `FormulaLaws.TextShown` | vimprojects/spreadsheet/cell.cpp:84-111 | a text behind an apostrophe is shown as it is; any other that is no formula as its number, or as it is if it is none |
| `ClosestPoints.GetClosestPointsDC` | AlgHomeWorks/src/closestPoints/ClosestPointersGenerator.java:73-171 | two points of the range at the least distance of any two; y holds the range ordered by height again, z is scratch, and nothing outside the range changes, although the two buffers change roles in the recursion; the pairs looked at in all strips are within the budget |
| `ClosestPoints.ManyPoints` | AlgHomeWorks/src/closestPoints/ClosestPointersGenerator.java:114-170 | the same for four points or more |
| `ClosestPoints.FewPoints` | AlgHomeWorks/src/closestPoints/ClosestPointersGenerator.java:80-112 | the same for two or three points |
| `ClosestPoints.Divide` | AlgHomeWorks/src/closestPoints/ClosestPointersGenerator.java:116-128 | the order by height is split by x index into the orders of the two halves, and copied back |
| `ClosestPoints.Distribute` | AlgHomeWorks/src/closestPoints/ClosestPointersGenerator.java:117-125 | each half of z holds exactly its points in their old order |
| `ClosestPoints.SolveHalves` | AlgHomeWorks/src/closestPoints/ClosestPointersGenerator.java:116-131 | both recursive calls, each leaving its half of z ordered by height |
| `ClosestPoints.Merge` | AlgHomeWorks/src/closestPoints/ClosestPointersGenerator.java:221-246 | two neighbouring ordered runs become one ordered run of the same points |
| `ClosestPoints.Strip` | AlgHomeWorks/src/closestPoints/ClosestPointersGenerator.java:148-155 | the points of the strip, in their order by height |
| `ClosestPoints.Scan` | AlgHomeWorks/src/closestPoints/ClosestPointersGenerator.java:156-167 | no pair of the strip is closer than the result, and the inner body runs at most seven times for each point |
| `ClosestPoints.ScanRow` | AlgHomeWorks/src/closestPoints/ClosestPointersGenerator.java:158-166 | the inner loop for one point: at most seven rounds, and every pair that begins with it is covered |
| `ClosestPoints.WithinSeven` | AlgHomeWorks/src/closestPoints/ClosestPointersGenerator.java:158-159 | while the inner loop still runs, j is at most seven behind i |
| `Plane.AtMostEight` | AlgHomeWorks/src/closestPoints/ClosestPointersGenerator.java:148-167 | in a box of the strip at most eight points can be pairwise apart on their sides |
| `Plane.SameBoxClose` | AlgHomeWorks/src/closestPoints/ClosestPointersGenerator.java:148-167 | two points of one side in the same eighth of the box are closer than the distance |
| `Plane.StripSuffices` | AlgHomeWorks/src/closestPoints/ClosestPointersGenerator.java:148-155 | if both halves and the strip have no closer pair, the whole range has none |
| `Plane.DistanceMoves` | AlgHomeWorks/src/closestPoints/DPoint.java:41-42 | moving both points by one vector does not change their distance |
| `Plane.DistanceAlong` | AlgHomeWorks/src/closestPoints/DPoint.java:41-42 | two points that differ by k in one coordinate only are k apart |
| `Plane.Pythagoras` | AlgHomeWorks/src/closestPoints/DPoint.java:41-42 | the squared distances of two points from a third add up to that between them exactly if there is a right angle at the third |
| `ClosestPoints.Conquer` | AlgHomeWorks/src/closestPoints/ClosestPointersGenerator.java:138-171 | the better of the two halves, improved in the strip, is the closest pair of the range |
| `ClosestPoints.MergeAndScan` | AlgHomeWorks/src/closestPoints/ClosestPointersGenerator.java:138-171 | merge, strip and scan after the recursive calls, with at most seven looks for each point of the range |
| `ClosestPoints.BudgetBound` | AlgHomeWorks/src/closestPoints/ClosestPointersGenerator.java:114-170 | over all levels of the recursion at most 7 n times the number of levels pairs are looked at |
| `ClosestPoints.LevelsBound` | AlgHomeWorks/src/closestPoints/ClosestPointersGenerator.java:114-131 | and there are at most lg(n - 1) levels |
| `ClosestPoints.GetClosestPointsN` | AlgHomeWorks/src/closestPoints/ClosestPointersGenerator.java:179-194 | the brute-force search finds a closest pair of two or more points, and nothing for fewer |
| `ClosestPoints.ClosestUnique` | AlgHomeWorks/src/closestPoints/ClosestPointersGenerator.java:42-64 | both methods find the same distance |
| `ClosestPoints.SetIndices` | AlgHomeWorks/src/closestPoints/ClosestPointersGenerator.java:51-54 | every point gets its place in the order by x |
| `ClosestPoints.Generator.Run` | AlgHomeWorks/src/closestPoints/ClosestPointersGenerator.java:42-64 | either method leaves a closest pair of the points in `result`, the points unchanged and ySorted ordered by height, the divide-and-conquer method within the budget of looks; any other method number gives -1 and changes no result |
| `LongestSubsequence.LIS.GetLISLen` | AlgHomeWorks/src/lis/LIS.java:9-46 | the call gets through exactly for a non-empty sequence, not negative after its first element, that rises somewhere or for which the left over lastIndex fits, if lis has room for the longest subsequence; then the result is the length of a longest non-decreasing subsequence, lis holds such a subsequence unless it is the array of the sequence itself, and lastIndex is its last position if it has two elements or more and otherwise as before |
| `LongestSubsequence.LIS.Fill` | AlgHomeWorks/src/lis/LIS.java:25-43 | the table loop: every position gets the length of a longest chain that ends there, and `pre` leads along such chains |
| `LongestSubsequence.LIS.BinarySearch` | AlgHomeWorks/src/lis/LIS.java:55-78 | the place just behind the entries that are not above n, or -1 for a negative n |
| `LongestSubsequence.LIS.GetSubsequence` | AlgHomeWorks/src/lis/LIS.java:85-94 | from lastIndex `pre` has exactly len links, which fill lis with a non-decreasing subsequence; if lis is the array of the sequence, what is written may be read again |
| `LongestSubsequence.OverlaidExactly` | AlgHomeWorks/src/lis/LIS.java:85-94 | with one array for both, it holds the subsequence afterwards exactly if no element of the chain stands on a place that a different one is copied to before it is read |
| `LongestSubsequence.OverlaidInstance` | AlgHomeWorks/src/lis/LIS.java:85-94 | the sequence 5, 1, 2 becomes 2, 2, 2 in place |
| `LongestSubsequence.DepthLongest` | AlgHomeWorks/src/lis/LIS.java:18-45 | no chain is longer than the greatest depth |
| `LongestSubsequence.GreatestIsLongest` | AlgHomeWorks/src/lis/LIS.java:25-45 | the greatest depth, and no other number, is the length of the longest chains |
| `LongestSubsequence.DepthChain` | AlgHomeWorks/src/lis/LIS.java:85-94 | following `pre` from any position gives a chain as long as its depth that ends there |
| `LongestSubsequence.ChainDepth` | AlgHomeWorks/src/lis/LIS.java:30-43 | the k-th element of any chain has depth at least k |
| `LongestSubsequence.NextDepth` | AlgHomeWorks/src/lis/LIS.java:31-37 | the place found by the search is one more than the greatest depth that can be followed |
| `LongestSubsequence.NextEntry` | AlgHomeWorks/src/lis/LIS.java:31-41 | the table stays sorted and minimal when the place is overwritten |
| `LongestSubsequence.RisesByDepth` | AlgHomeWorks/src/lis/LIS.java:38-41 | lastIndex is set exactly if some element is followed by one that is not smaller |
| `Sorting.RadixSort` | AlgHomeWorks/src/sortCmp/SortUtil.java:43-61 | after eight passes with exchanged buffers the words of the caller's array are in unsigned order, and they are the same words |
| `Sorting.RadixSortHelp` | AlgHomeWorks/src/sortCmp/SortUtil.java:71-93 | a counting pass is exactly the stable distribution by four bits, and the calls it refuses change nothing |
| `Sorting.PassSorts` | AlgHomeWorks/src/sortCmp/SortUtil.java:63-93 | a stable pass by the next digit orders by one digit more and keeps the words |
| `Sorting.CountDigits` | AlgHomeWorks/src/sortCmp/SortUtil.java:78-83 | every count is the number of words with that digit |
| `Sorting.AddUp` | AlgHomeWorks/src/sortCmp/SortUtil.java:85-87 | every entry becomes the end of its bucket |
| `Sorting.PlaceAll` | AlgHomeWorks/src/sortCmp/SortUtil.java:89-92 | placing from the end fills every bucket in the old order |
| `Sorting.MergeSort` | AlgHomeWorks/src/sortCmp/SortUtil.java:26-35 | the words are in unsigned order and the same |
| `Sorting.MergeSortHelp` | AlgHomeWorks/src/sortCmp/SortUtil.java:132-171 | the destination holds the range sorted, though source and destination change roles in the recursion |
| `Sorting.MergeHalves` | AlgHomeWorks/src/sortCmp/SortUtil.java:142-170 | the three loops merge two runs of the source into the destination |
| `Sorting.InsertionSortHelp` | AlgHomeWorks/src/sortCmp/SortUtil.java:218-229 | the range is sorted in place and holds the same words |
| `Sorting.InsertionSort` | AlgHomeWorks/src/sortCmp/SortUtil.java:18-24 | the words are in unsigned order and the same |
| `Sorting.SortsUnique` | AlgHomeWorks/src/sortCmp/SortUtil.java:43-61 | there is only one sorted arrangement, so radix sort, merge sort and insertion sort leave the same array |
| `Words.ULess` | AlgHomeWorks/src/sortCmp/SortUtil.java:253-274 | comparing digits from the top is the unsigned comparison |
| `Words.UGreaterEq` | AlgHomeWorks/src/sortCmp/SortUtil.java:282-297 | the same for not less |
| `Words.SignIrrelevant` | AlgHomeWorks/src/sortCmp/SortUtil.java:101-105 | the shift that keeps the sign gives the digits of the unsigned number |
| `Words.AllDigits` | AlgHomeWorks/src/sortCmp/SortUtil.java:52-59 | the order by all eight digits is the order of the unsigned numbers |
| `Knapsacks.Knapsack.Run` | AlgHomeWorks/src/knapsack/Knapsack.java:17-67 | -1 for what is no problem; otherwise the value of the two-dimensional recurrence, every choice kept, and a best value whenever the items are fair at the capacity of the call |
| `Knapsacks.Knapsack.NextItem` | AlgHomeWorks/src/knapsack/Knapsack.java:53-63 | overwriting the row from its right end reads only the row before |
| `Knapsacks.Knapsack.FirstItem` | AlgHomeWorks/src/knapsack/Knapsack.java:48-51 | the first row and its choices |
| `Knapsacks.Knapsack.GetResult` | AlgHomeWorks/src/knapsack/Knapsack.java:74-86 | the marked items fit and have the value that run returned |
| `Knapsacks.RightExactlyIfFair` | AlgHomeWorks/src/knapsack/Knapsack.java:47-64 | the table is right for every number of items and every capacity from 0 on exactly if the first value is not negative and no later item without weight has a positive value |
| `Knapsacks.RightForAllValues` | AlgHomeWorks/src/knapsack/Knapsack.java:47-64 | for the capacities above 0 that run accepts: with given weights the answers are right for all values (the first not negative) exactly if no later item without weight has an item with weight behind it |
| `Knapsacks.BothFit` | AlgHomeWorks/src/knapsack/Knapsack.java:53-63 | otherwise two items worth 1 make the answer wrong: the later one is put on top of capacity 0, where the weightless one is missing |
| `Knapsacks.RowBest` | AlgHomeWorks/src/knapsack/Knapsack.java:39-46 | for items that are fair at a capacity the recurrence gives the greatest value of any choice that fits |
| `Knapsacks.ChosenValue` | AlgHomeWorks/src/knapsack/Knapsack.java:74-86 | the choice read back from the table fits and attains the value |
| `Knapsacks.FirstTooEager` | AlgHomeWorks/src/knapsack/Knapsack.java:48-51 | a first item with negative value is put in nevertheless |
| `Knapsacks.WeightlessLeftOut` | AlgHomeWorks/src/knapsack/Knapsack.java:53-63 | an item without weight is not put into capacity 0 |
| `PentrisGame.Game.Run` | vimprojects/collectedsrc/pentris.c:372-486 | over every run of ticks and keys: the states in their order, each with the effect of its event, and all events happen unless the game is over; the piece always has room, no line stays full, and five times the frozen pieces are the occupied squares plus the columns times the score |
| `PentrisGame.OneOutcome` | vimprojects/collectedsrc/pentris.c:372-486 | an event has one outcome: the whole state afterwards is determined, the pit, the new piece and its starting place included |
| `PentrisGame.OneRun` | vimprojects/collectedsrc/pentris.c:372-486 | the first state and the events determine all states of a run |
| `PentrisGame.Game.FallCallback` | vimprojects/collectedsrc/pentris.c:372-387 | the whole state afterwards: the piece falls by one line if it has room there; otherwise it is frozen and scored and the promised piece starts, or the game is over with the pit unchanged |
| `PentrisGame.Game.KeyPress` | vimprojects/collectedsrc/pentris.c:418-486 | the whole state after each key: what it does to column, orientation, line and pause, only where the piece has room, and nothing else |
| `PentrisGame.Game.Drop` | vimprojects/collectedsrc/pentris.c:448-453 | the piece comes down as far as it has room all the way |
| `PentrisGame.Game.FinalizeShape` | vimprojects/collectedsrc/pentris.c:316-340 | a piece inside the pit is frozen, full lines removed and scored; a piece that cannot be frozen sticks out of the top |
| `PentrisGame.Game.InitiateShape` | vimprojects/collectedsrc/pentris.c:342-360 | the promised piece starts in the middle in its promised orientation, at the lowest line from the top where it has room, and a new one is promised, not turned |
| `PentrisGame.Game.CrunchLines` | vimprojects/collectedsrc/pentris.c:158-201 | in place: the lines that are not full in their order, blank lines above them, and the number of full lines |
| `PentrisGame.Game.DoPlace` | vimprojects/collectedsrc/pentris.c:237-250 | exactly the squares of the piece that lie in the pit are filled; five more if it fits |
| `PentrisGame.Game.CanPlace` | vimprojects/collectedsrc/pentris.c:203-219 | true exactly if every square of the piece is inside the pit on an empty place |
| `PentrisGame.Game.CanPlaceNoTop` | vimprojects/collectedsrc/pentris.c:221-235 | the same with the well infinite on top |
| `PentrisGame.Game.constructor` | vimprojects/collectedsrc/pentris.c:592-595 | the empty pit with the first piece started in it |
| `PentrisGame.Freeze` | vimprojects/collectedsrc/pentris.c:322-323 | five squares more and the full lines gone: what the pit holds then |
| `PentrisGame.FreezeBalanced` | vimprojects/collectedsrc/pentris.c:322-326 | the balance is kept when the piece is counted and its lines are scored |
| `PentrisGame.AboveGround` | vimprojects/collectedsrc/pentris.c:448-449 | a piece with room is not below the ground by its height, so falling ends |
| `PentrisGame.RoomOnTop` | vimprojects/collectedsrc/pentris.c:355-359 | above the pit there is room in the middle columns, so the search for a starting line ends |
| `Pits.CrunchedCount` | vimprojects/collectedsrc/pentris.c:158-201 | crunching takes away exactly the squares of the full lines and leaves no full line |
| `Pits.CrunchedRow` | vimprojects/collectedsrc/pentris.c:158-201 | a line that is not full falls by as many lines as there were full ones below it, and the lines that come free at the top are blank |
| `PentrisGame.FitsExactly` | vimprojects/collectedsrc/pentris.c:203-250 | a piece has room inside the pit exactly if filling it in makes five squares more |
| `PentrisGame.FrozenAsDrawn` | vimprojects/collectedsrc/pentris.c:520-547 | a piece is frozen on exactly the squares where it is drawn |
| `PieceTable.TablePlayable` | vimprojects/collectedsrc/pentris.c:65-142 | every orientation of every one of the eighteen pieces has five squares |
| `PieceTable.TableTurns` | vimprojects/collectedsrc/pentris.c:65-142 | each orientation of a piece is a quarter turn of the one before, and the first of the last; the squares of every one hang together |
| `XmlText.RoundTrip` | vimprojects/collectedsrc/tinyxml/tinyxml.cpp:1214-1237 | for every attribute, whatever text follows it: printing and parsing give back name and value, with the pointer just past the closing quote, exactly if the value has no hexadecimal character reference |
| `XmlText.SpacedRoundTrip` | vimprojects/collectedsrc/tinyxml/tinyxmlparser.cpp:1389-1441 | with any white space in front of the name, behind it and behind the equals sign, either kind of quotes, and any text in front and behind: name and value are found, with the pointer just behind the closing quote, exactly if the value has no hexadecimal reference |
| `XmlText.ParsesBare` | vimprojects/collectedsrc/tinyxml/tinyxmlparser.cpp:1442-1460 | a value without quotes ends at white space, a slash, a greater-than sign or the end of the text, and a quote in it is an error; white space and surroundings as before |
| `XmlText.SkipsRun` | vimprojects/collectedsrc/tinyxml/tinyxmlparser.cpp:314-362 | skipping ends behind the whole run of white space, wherever it stands |
| `XmlText.SixSpaces` | vimprojects/collectedsrc/tinyxml/tinyxml.h:285-300 | white space is these six characters |
| `XmlText.Spelling` | vimprojects/collectedsrc/tinyxml/tinyxml.cpp:51-132 | how each character with a meaning of its own is written |
| `XmlNumbers.NumberRead` | vimprojects/collectedsrc/tinyxml/tinyxmlparser.cpp:438-531 | a reference to any number of 32 bits, decimal or hexadecimal in either case, is used up and gives that number: its lowest byte, or in UTF-8 the bytes that stand for it |
| `XmlNumbers.DecimalRead` | vimprojects/collectedsrc/tinyxml/tinyxmlparser.cpp:480-498 | the same for decimal digits, written out |
| `XmlNumbers.BytesRead` | vimprojects/collectedsrc/tinyxml/tinyxmlparser.cpp:88-124 | decoding the bytes gives the number back, for all numbers of up to 21 bits, and no others have any |
| `XmlNumbers.OneCharacter` | vimprojects/collectedsrc/tinyxml/tinyxmlparser.cpp:66-124 | the first byte written for a number tells how many there are, so that they are read as one character |
| `XmlNumbers.MarksSkipped` | vimprojects/collectedsrc/tinyxml/tinyxmlparser.cpp:324-347 | the marks that are skipped in UTF-8 are the bytes of the byte order mark and of the two numbers FFFE and FFFF |
| `XmlNumbers.NameCharacters` | vimprojects/collectedsrc/tinyxml/tinyxmlparser.cpp:401-436 | in ASCII a name begins with a letter or an underscore and goes on with these, digits, hyphens, points and colons |
| `XmlText.ReadsBack` | vimprojects/collectedsrc/tinyxml/tinyxmlparser.cpp:574-637 | without references, what was written is read back up to just behind the quote |
| `XmlText.NotReadBack` | vimprojects/collectedsrc/tinyxml/tinyxml.cpp:59-84 | a value with a reference is not read back, whatever follows: another value is read, or reading does not stop at the closing quote |
| `XmlText.ReadInFront` | vimprojects/collectedsrc/tinyxml/tinyxmlparser.cpp:574-637 | what is read within the front part of a text does not depend on what follows |
| `XmlText.NoQuoteWritten` | vimprojects/collectedsrc/tinyxml/tinyxml.cpp:1214-1237 | for a value without references nothing written between the quotes is a quote |
| `XmlText.NeverLonger` | vimprojects/collectedsrc/tinyxml/tinyxmlparser.cpp:438-531 | with nothing behind the closing quote, reading never gives more characters than were written, and fewer from a reference on |
| `XmlText.ReadsEscape` | vimprojects/collectedsrc/tinyxml/tinyxmlparser.cpp:514-524 | what is written for a character is read as that character, and never starts with a quote |
| `XmlText.ReadsReference` | vimprojects/collectedsrc/tinyxml/tinyxmlparser.cpp:445-512 | two hexadecimal digits of a control character are read back |
| `XmlText.ReadsUnclosed` | vimprojects/collectedsrc/tinyxml/tinyxml.cpp:74-84 | with nothing behind the closing quote, a reference without semicolon in the value is closed at most by the escape of the last character, and then fewer characters are read than written |
| `XmlText.ParsePrinted` | vimprojects/collectedsrc/tinyxml/tinyxmlparser.cpp:1389-1441 | parsing what was printed comes down to reading the value, the name being read in full |
| `XmlAttribute.EncodeString` | vimprojects/collectedsrc/tinyxml/tinyxml.cpp:51-132 | the loops write exactly the encoding, references passed through |
| `XmlAttribute.PassThrough` | vimprojects/collectedsrc/tinyxml/tinyxml.cpp:74-84 | a reference is passed through up to its semicolon, but never the last character |
| `XmlAttribute.GetEntity` | vimprojects/collectedsrc/tinyxml/tinyxmlparser.cpp:438-531 | numbers in both bases with the arithmetic of the source, of which `XmlNumbers.NumberRead` says what it reads, and the five named entities |
| `XmlAttribute.GetChar` | vimprojects/collectedsrc/tinyxml/tinyxml.h:329-363 | one character, entity or sequence of several bytes |
| `XmlAttribute.ReadText` | vimprojects/collectedsrc/tinyxml/tinyxmlparser.cpp:580-595 | white space kept: characters are read up to the end tag, with the failures of the loop |
| `XmlAttribute.StringEqual` | vimprojects/collectedsrc/tinyxml/tinyxmlparser.cpp:534-572 | true exactly if the tag stands at the pointer, letter by letter or without regard to case |
| `XmlAttribute.ReadName` | vimprojects/collectedsrc/tinyxml/tinyxmlparser.cpp:401-436 | the longest run of name characters behind a letter or underscore |
| `XmlAttribute.SkipWhiteSpace` | vimprojects/collectedsrc/tinyxml/tinyxmlparser.cpp:314-362 | all the white space, and in UTF-8 the byte order marks in it, is skipped, as `XmlText.SkipsRun` says |
| `XmlAttribute.ReadValue` | vimprojects/collectedsrc/tinyxml/tinyxmlparser.cpp:1426-1462 | quoted and bare values |
| `XmlAttribute.TiXmlAttribute.ParseFrom` | vimprojects/collectedsrc/tinyxml/tinyxmlparser.cpp:1389-1464 | name, value and pointer, or the error, of an attribute |
| `XmlAttribute.TiXmlAttribute.Write` | vimprojects/collectedsrc/tinyxml/tinyxml.cpp:1214-1237 | the name, an equals sign and the encoded value, between single quotes if the value has a double quote and between double quotes otherwise |
| `XmlAttribute.WriteAndParse` | vimprojects/collectedsrc/tinyxml/tinyxml.cpp:1214-1237 | an attribute written and parsed again has the same name and value |

## Left out

- The red-black trees: `RB_AUGMENT`, which does nothing by default, token pasting, and backward iteration
  as a loop (`Prev` is modelled). The `SPLAY_*` macros of tree.h are the algorithm of top-down-splay.c.
- The splay trees: the bound on the cost counts nodes visited, with a logarithm rounded down, and makes
  no claim about its constant being the best. `malloc` failure and `main` are not modelled.
- The compiler: statements, arithmetic and comparisons, the constants true and false, the scanner and
  error recovery; of the parsing tables only the part that conditions use. Undeclared and non-boolean
  variables are excluded by `Declared`.
- Spreadsheet.Table.EditSafeExactly: leaves out the case that all clean cells that lead to the edited one show
  Invalid; whether some edit would change them depends on the arithmetic of the whole formula, and only the
  direction of `SemElsewhere` is proved.
- Spreadsheet formulas: malformed formulas, on which the position can pass the terminator, and the rounding
  of doubles are not modelled.
- ClosestPoints.Generator.Run: with fewer than two points the divide-and-conquer method does not end, so
  two points are required for it. The comparators' truncation of differences does not matter for integer
  coordinates. yIndex is written but never read. `Arrays.sort` is taken by its specification.
- LongestSubsequence.LIS.GetLISLen: the state after a failed call is not described.
- Sorting: `quickSort`, whose left scan can read behind its range when the pivot is the greatest element.
- The knapsack program: overflow of sums, and negative weights, on which it indexes outside its tables.
- The game: the statistics of the pieces, timers, drawing beyond which squares are
  drawn, and the immediate fall that unpausing requests, which is a tick like any other.
- XmlAttribute.ReadText: the end tag is one character and white space is kept, as for attribute values; the
  branch that condenses white space belongs to the text of elements.
- XML: elements, comments, streaming, positions of errors and the conversion of other encodings.
- XmlText.RoundTrip: in UTF-8, values with incomplete sequences are not considered.
- The rest of the repository: user interfaces, files, sockets, mail, databases, and small programs (a
  stack, queues, Fibonacci numbers, eight queens) are not modelled.
