# Models of darktable's cache, curves, camera matrices, calculator, collections and colour picker

This project states and proves, in Dafny, what six parts of `src/common` do. Each part is modelled in the
form its source has: what updates fields or arrays in place is a class or a method with loops, proved
against a function or a property of the old state; the properties themselves are lemmas over every input,
every run or every reachable state. Floating point numbers are real numbers, integers are unbounded unless a
wrap-around is written out.

**The concurrent LRU cache** (`cache.c`). `CacheStore` has the state of the cache as a value (memory, hash
table, LRU list, cost, log of clean-up calls) and the effect of each operation on it. `CacheProtocol` is the
transition system of any number of threads: lookups that hit, contend or miss, a collection that visits one
entry at a time while other threads release and demote, removals, releases, and the demotion of `mipmap_cache.c`: set
the flag of the entry a get for reading returned, release it, get the key again, clear the flag of what that
returned. What clients hold is recorded apart from the lock words in memory; a thread that holds several
entries counts once for each. `CacheRuns` draws the consequences for every run, among them what a collection
finds while other threads go on, `CacheGc` says what a collection evicts without interference, and
`CacheDemotion` settles when an entry can be lost during a demotion.
`LruCache` is the class with its fields and entry objects; its methods do what the functions on stores say, and
`CacheAttempt` says that these are the uninterrupted steps of the transition system.

**Splines and curve sampling** (`curve_tools.c`). `Tridiagonal` is the solver that overwrites its matrix;
`CubicSpline` fills the spline system, shows that no pivot is ever zero, and that the solutions of the system
are exactly the twice continuously differentiable piecewise cubics with the given ends. `HermiteMath`,
`MonotoneHermite` and `HermiteCurve` cover tangent limiting: the data determine the tangents, later iterations
rewrite tangents of earlier intervals, the circle condition survives, and the limited curve is nondecreasing
exactly when the data are. `HermiteShape` says which cubics the pieces are and when straight data give a straight
curve. `CurveSample` is the table of samples, and `CurveTable` says what it holds at, before, after and without
anchors.

**Pseudoinverse and camera matrices** (`colorspaces.c`). `GramMatrix` and `Pseudoinverse`: Gauss-Jordan
elimination on any number of rows, with the invariant that the left half of the work array is its right half
times the Gram matrix; a pivot is a squared length, so it is zero only for dependent columns. `CameraMatrices`
and `WhiteBalance` build on it.

**The calculator** (`calculator.c`). `CalculatorSyntax` has the scanner and the grammar as a parser to trees;
`CalculatorGrammar` proves the parser accepts exactly the sentences of the grammar; `CalculatorPrint` prints a
tree with the fewest parentheses and solves it again; `CalculatorLaws` says what each way of writing a formula
means, in the operations of the arithmetic; `CalculatorNan` tells what a formula outside the grammar is answered
with; `Calculator` is the recursive descent on a scanner position and a current token.

**Collections** (`collection.c`). `Grouping`: which images are shown when groups are collapsed. `PartialDate`
and `DateQuery`: comparing timestamps with a partial date. `RuleText` and `CollectionRules`: writing the rules
to a text and reading them back.

**The colour picker** (`color_picker.c`). `Reduction` joins sums, minima, maxima and counts in any order and
through any partial results; `PickerPixels` has the pixels of a box and the colour filters, `PickedMean` the
counts, sums and extremes of the pixels themselves; `ColorPicker` has the helpers of one thread and of several,
and shows that they answer these for every schedule.

Five properties one might expect are false of the code, and are given with their exact condition:

- An entry can be lost during a demotion: two threads that get the same image for reading both set the flag,
  the first to finish takes it down, and the entry is freed before the second gets its key again
  (`CacheDemotion.LossReachable`). Nothing in the source keeps a second thread from it, so from every state
  in the middle of a demotion some run loses the entry (`CacheDemotion.AlwaysLosable`). Over runs in which
  no other thread begins to demote the key, `CacheDemotion.LosableAloneIff` gives the condition.
- A malformed formula is not always answered with not-a-number: `1^` is answered with one
  (`CalculatorNan.DanglingPower`), and anything may follow a leading increment
  (`CalculatorNan.LeadingIncrement`). `CalculatorNan.MalformedNanIff` gives the condition, formula by formula.
- "Before", "equal" and "after" a partial date do not always cover every timestamp: a lone digit or a blank
  after the last whole field leaves a gap. `DateQuery.LawIff` gives the condition.
- Straight data do not always give a straight monotone curve: where the slope counts as flat without being
  level, the tangents are zeroed and the line bends. `HermiteShape.StraightIff` gives the condition.
- Equal white balance coefficients do not scale a buffer in place: each pixel is cleared before it is read and
  turns black. `WhiteBalance.EqualCoefficientsScale` gives the condition.

## Model

| member | source | states |
|---|---|---|
| `CacheProtocol.StepKeepsInv` | src/common/cache.c:107-396 | Every step of every thread keeps: table and LRU list in bijection with the live entries, cost equal to the sum of the live costs, every held lock on a live entry and counted in its lock word, a thread holding exactly the entry its place in its use says, demotions at entries of their own key, list ordered by last acquisition, a collection's progress. |
| `CacheProtocol.EvictableNotHeld` | src/common/cache.c:277-293 | An entry that passes the eviction test is held by no thread. |
| `CacheRuns.RunKeepsInv` | src/common/cache.c:107-396 | The invariant holds after any run from any state that has it. |
| `CacheRuns.HeldEntryIsMapped` | src/common/cache.c:155-361 | In every run of any number of threads, an entry on which a thread holds a lock is live, in the LRU list exactly once, and found under its own key. |
| `CacheRuns.EvictableIff` | src/common/cache.c:277-293 | The eviction test in memory says exactly that no thread holds the entry and its demoting flag is down. |
| `CacheRuns.StepFreesOnlyIdle` | src/common/cache.c:260-361 | A step that frees an entry found it unheld and not being demoted and cleans it up once; all other entries keep key and cost. |
| `CacheRuns.MissLocks` | src/common/cache.c:216-248 | A step that allocates leaves one new entry, mapped under the key, most recently used, at the cost charged: with an allocate callback write-locked by the thread whatever mode it asked for; without one write-locked exactly for mode write, and otherwise with that thread as its only reader. |
| `CacheRuns.HitLocks` | src/common/cache.c:155-207 | A lookup of a mapped key changes nothing if the entry is write-locked, or has readers and a write lock is asked for; otherwise the thread gets that one lock and the entry becomes the most recently used. |
| `CacheRuns.ReleaseDrops` | src/common/cache.c:363-396 | A release drops the lock of that thread on that entry and no other. |
| `CacheRuns.MissCollectsIff` | src/common/cache.c:209-215 | A miss collects first if and only if the cost exceeds four fifths of the quota. |
| `CacheRuns.RunCleansOnce` | src/common/cache.c:295-313 | Over a whole run every allocated entry is either live and never cleaned up, or gone and cleaned up exactly once. |
| `CacheRuns.RunCost` | src/common/cache.c:216-248 | In every run the cost field is the sum of the live costs modulo the word size, and the sum itself while that fits a word. |
| `CacheStore.CostDoesNotWrap` | src/common/cache.c:343-345 | Evicting an entry subtracts its cost without wrap-around. |
| `CacheRuns.CollectionVisits` | src/common/cache.c:320-361 | While a miss collects, whatever other threads do in between: every link it skips was held or being demoted when it was visited, every entry it evicts was idle, and no link is visited once the cost is below the threshold. |
| `CacheRuns.MissCostBound` | src/common/cache.c:209-248 | After a miss that collected, over any run from its start to its end, the cost is at most four fifths of the quota, or the cost of distinct entries each found held or being demoted when visited, plus the cost of the new entry. |
| `CacheRuns.DirectMissCost` | src/common/cache.c:209-248 | A miss that need not collect leaves at most four fifths of the quota and the cost of the new entry. |
| `CacheGc.VisitIsCollect` | src/common/cache.c:320-361 | The single visits of a collecting miss are the iterations of the collection loop. |
| `CacheGc.CollectShortestPrefix` | src/common/cache.c:320-361 | A collection evicts exactly the unpinned entries of a prefix of the list, the shortest after which the cost is below the threshold, or the whole list; everything else is left in place and order. |
| `CacheGc.CollectKeepsInv` | src/common/cache.c:320-361 | A collection keeps the store invariant and maps no new key. |
| `CacheGc.CollectCost` | src/common/cache.c:320-361 | A collection without interference leaves less than the threshold, or only what was pinned. |
| `CacheDemotion.StepKeepsKeySafe` | src/common/cache.c:286-340 | While no other thread demotes or begins to demote the key, no step of any thread frees the entry a thread demotes, takes its flag down or lets its second get return another entry. |
| `CacheDemotion.RegetReturnsSameEntry` | src/common/mipmap_cache.c:820-828 | A thread sets the flag while no other demotes the key. In every run from there in which no other begins to, the entry stays live, flagged and mapped; the second get returns it or finds it write-locked, and the flag is cleared on that entry. |
| `CacheDemotion.AlwaysLosable` | src/common/mipmap_cache.c:820-828 | Without restriction: from every state in which a thread has set the flag and not got the key again, whatever the other threads are doing, some run frees its entry. |
| `CacheDemotion.LosableAloneIff` | src/common/mipmap_cache.c:820-828 | Over runs in which no other thread begins to demote the key, some run frees the entry before the second get if and only if the entry is gone already, its flag is down, or another thread was demoting an entry of the key before. |
| `CacheDemotion.OverlapReachable` | src/common/mipmap_cache.c:820-828 | A run of six steps in which both of two gets for reading end between setting the flag and getting the key again: after its get the first thread is the writer of the new entry, which then has no reader, and after its own get the second is the only reader. |
| `CacheDemotion.LossReachable` | src/common/mipmap_cache.c:820-828 | From there a run frees the entry while the second thread has yet to get its key again. |
| `LruCache.CacheEntry.TryLock` | src/common/cache.c:166-172 | The lock word after a try call, and whether it is granted. |
| `LruCache.CacheEntry.TryFree` | src/common/cache.c:332-340 | Takes the write lock exactly of an unheld entry that is not being demoted, and otherwise leaves the lock as it was. |
| `LruCache.Cache.constructor` | src/common/cache.c:32-47 | An empty cache. |
| `LruCache.Cache.Contains` | src/common/cache.c:73-79 | True exactly when a linked entry has the key. |
| `LruCache.Cache.TestGet` | src/common/cache.c:107-150 | Locks a mapped entry and moves it to the most recently used end, or changes nothing; returns which. |
| `LruCache.Cache.Get` | src/common/cache.c:155-258 | One attempt: a hit as above, nothing on contention, and on a miss a collection if the cost is over four fifths of the quota, then a new entry at the most recently used end, under the key and at the cost given: write-locked where there is an allocate callback or mode write was asked for, else with one reader. |
| `LruCache.GetStoreCost` | src/common/cache.c:209-248 | The cost after such a miss: at most four fifths of the quota, or that of the entries that were pinned, plus the new entry. |
| `CacheAttempt.StepsAreGetStore` | src/common/cache.c:155-258 | The get step of the transition system, its visits and its finish, with nothing in between, leave the store of one such attempt. |
| `CacheAttempt.MissCanFinish` | src/common/cache.c:209-248 | Every miss that collects can be brought to its end that way. |
| `LruCache.Cache.Remove` | src/common/cache.c:260-317 | Absent, busy or removed, each exactly when; only a removal changes the cache. |
| `LruCache.Cache.Gc` | src/common/cache.c:320-361 | The loop over links that deletes while it walks refines the collection on stores. |
| `LruCache.Cache.Release` | src/common/cache.c:363-396 | Drops one lock and changes nothing else. |
| `LruCache.Cache.Cleanup` | src/common/cache.c:49-71 | Cleans up every linked entry. |
| `LruCache.CleanupExactlyOnce` | src/common/cache.c:49-71 | By the end every allocation has been cleaned up exactly once. |
| `Tridiagonal.D3NpFs` | src/common/curve_tools.c:95-135 | NULL exactly for a bad size or a zero on the diagonal; solved exactly when no pivot is zero; then every row of the original system holds, although the matrix is overwritten. |
| `Tridiagonal.Eliminate` | src/common/curve_tools.c:121-126 | The forward loop leaves the pivots and the forward right hand sides of the original matrix. |
| `Tridiagonal.Substitute` | src/common/curve_tools.c:128-132 | The backward loop solves the original system. |
| `Tridiagonal.RowIffUpper` | src/common/curve_tools.c:121-126 | One elimination step keeps the solutions, in both directions. |
| `Tridiagonal.SolutionUnique` | src/common/curve_tools.c:95-135 | With nonzero pivots the solution is unique. |
| `CubicSpline.PivotDominates` | src/common/curve_tools.c:282-338 | Every pivot of the spline system but the last is positive and greater than the superdiagonal entry to its right. |
| `CubicSpline.SplinePivotsPositive` | src/common/curve_tools.c:282-338 | No pivot is zero, for all nine combinations of boundary conditions but the one answered without solving. |
| `CubicSpline.RowIffSlopesAgree` | src/common/curve_tools.c:311-317 | An interior row says exactly that adjacent pieces have the same slope at their knot. |
| `CubicSpline.FirstRowIffLeftEnd` | src/common/curve_tools.c:282-299 | The first row says exactly that the left boundary condition holds. |
| `CubicSpline.LastRowIffRightEnd` | src/common/curve_tools.c:321-338 | The last row says exactly that the right boundary condition holds. |
| `CubicSpline.SolvesIffSpline` | src/common/curve_tools.c:248-375 | Second derivatives solve the system if and only if the pieces they make agree in value, slope and second derivative at every interior knot and meet both boundary conditions. |
| `CubicSpline.Taylor` | src/common/curve_tools.c:626-667 | The slope and bend used above are the first and second derivative. |
| `CubicSpline.SplineCubicSetInternal` | src/common/curve_tools.c:248-375 | NULL exactly for a bad size, knots that do not increase or a bad flag; otherwise the result is a spline. |
| `CubicSpline.SplineCubicSet` | src/common/curve_tools.c:381-384 | The natural spline: zero second derivative at both ends. |
| `CubicSpline.SplineCubicVal` | src/common/curve_tools.c:626-667 | Evaluates the piece of the interval found, the last one beyond the knots. |
| `CubicSpline.SplineInterpolates` | src/common/curve_tools.c:626-667 | The evaluated curve goes through every data point. |
| `CubicSpline.SplineOnInterval` | src/common/curve_tools.c:626-667 | On each closed interval the evaluated curve is that interval's piece. |
| `CubicSpline.SplineUnique` | src/common/curve_tools.c:248-375 | There is only one spline with these data and ends. |
| `MonotoneHermite.MonotoneHermiteSet` | src/common/curve_tools.c:398-460 | NULL exactly for fewer than two knots or knots that do not increase; otherwise the tangents are those of the iteration, which on an interval that is not flat keeps tangents in the circle of three times its slope and puts others on it at the same ratio; each is its initial value scaled by a factor from zero to one, and zero exactly where told. |
| `MonotoneHermite.LimitStep` | src/common/curve_tools.c:439-457 | One iteration keeps all that for the earlier intervals, whose tangents it rewrites, and adds its own. |
| `MonotoneHermite.ScaleBack` | src/common/curve_tools.c:448-455 | Scaled tangents keep their sign and their ratio and lie on the circle. |
| `MonotoneHermite.LimitsUnique` | src/common/curve_tools.c:439-457 | Those conditions determine the two tangents of an iteration. |
| `MonotoneHermite.TangentsUnique` | src/common/curve_tools.c:398-460 | The data determine all tangents. |
| `MonotoneHermite.UnlimitedTangents` | src/common/curve_tools.c:439-457 | Where no interval is flat and the initial tangents of every interval lie in its circle, the tangents are the initial ones. |
| `MonotoneHermite.InitialIsAverage` | src/common/curve_tools.c:426-438 | The initial tangents: the slope of the end interval, or the mean of the slopes on both sides. |
| `MonotoneHermite.LimitedByIsLimited` | src/common/curve_tools.c:398-460 | Whatever the iterations end with has the sign, the zeros and the circle condition of every interval. |
| `HermiteShape.PieceIsCubic` | src/common/curve_tools.c:551-567 | A Hermite piece is the cubic with the data as its values and the tangents as its slopes at both ends of its interval. |
| `HermiteShape.StraightTangents` | src/common/curve_tools.c:426-457 | Straight data give tangents equal to the slope, or zero where that counts as flat. |
| `HermiteShape.StraightIff` | src/common/curve_tools.c:398-568 | The monotone curve of straight data is that line if and only if the slope does not count as flat or is zero. |
| `HermiteMath.RiseMonotone` | src/common/curve_tools.c:555-567 | A Hermite piece whose end tangents are nonnegative and in the circle is nondecreasing. |
| `HermiteMath.RisesIff` | src/common/curve_tools.c:555-567 | In the circle, a piece is nondecreasing if and only if both end tangents are nonnegative. |
| `HermiteCurve.CatmullRomVal` | src/common/curve_tools.c:534-568 | Evaluates the piece of the interval found. |
| `HermiteCurve.CurveOnInterval` | src/common/curve_tools.c:534-568 | On each closed interval the curve is that interval's piece. |
| `HermiteCurve.IntervalRisesIff` | src/common/curve_tools.c:398-568 | Over an interval whose data rise, the limited curve rises if and only if both initial tangents are nonnegative or were zeroed. |
| `HermiteCurve.LimitedCurveRises` | src/common/curve_tools.c:398-568 | Over nondecreasing data the limited curve is nondecreasing on the whole range of knots. |
| `HermiteCurve.LimitedCurveRisesIff` | src/common/curve_tools.c:398-568 | The limited curve is nondecreasing if and only if the data are. |
| `CurveSample.CatmullRomSet` | src/common/curve_tools.c:475-509 | The tangents are chord slopes, those at the ends one-sided. |
| `CurveSample.CatmullRomBetween` | src/common/curve_tools.c:502-505 | A tangent lies between the slopes of its two intervals. |
| `CurveSample.InterpolateSet` | src/common/curve_tools.c:511-514 | When the chosen routine succeeds, and its parameters, whichever it is. |
| `CurveSample.InterpolateVal` | src/common/curve_tools.c:516-519 | On the interval looked up, the value of the cubic of the second derivatives for the spline and of the Hermite piece of the tangents for the other two. |
| `CurveSample.CurveDataSample` | src/common/curve_tools.c:678-753 | Succeeds exactly when there is not one anchor and the scaled anchors increase; then every table entry is, as an unsigned short: before the first point its value, after the last point its value, and in between the clamped, rounded value of the piece that covers the position, of the spline by its second derivatives, of the others by their tangents; on error nothing is written. |
| `CurveSample.SamplesInRange` | src/common/curve_tools.c:678-753 | With anchors in the unit box every sample lies between the box's bottom and top. |
| `CurveSample.SamplesStoredExactly` | src/common/curve_tools.c:740-749 | A box that fits the sample type is stored without wrap-around. |
| `CurveSample.SamplesRise` | src/common/curve_tools.c:678-753 | With monotone Hermite and nondecreasing data the samples, before conversion, are nondecreasing over all indices whose position lies between the first and the last knot. |
| `CurveSample.StoredSamplesRise` | src/common/curve_tools.c:678-753 | With nondecreasing anchors in the unit box and a box that fits the sample type, so is the stored table. |
| `CurveTable.AnchorSample` | src/common/curve_tools.c:704-747 | For every kind of curve, the sample at the grid point of an anchor is the anchor in the box, rounded. |
| `CurveTable.FlatStart` | src/common/curve_tools.c:713-736 | Before the first anchor the sample is that anchor, truncated. |
| `CurveTable.FlatEnd` | src/common/curve_tools.c:715-740 | After the last anchor the sample is that anchor, truncated. |
| `CurveTable.DiagonalSample` | src/common/curve_tools.c:693-747 | Without anchors the sample is the rounded diagonal of the box for every kind of curve, but for the monotone one over a box that counts as flat without being level, which eases in and out. |
| `CurveTable.UnitDiagonal` | src/common/curve_tools.c:693-747 | Over the unit box that is the integer nearest to the index times the ratio of the resolutions. |
| `CurveTable.RoundedMeaning` | src/common/curve_tools.c:717-747 | A sample between the edges of the box is the grid point nearest to the curve, upwards where two are equally near; at an edge the curve lies there or beyond. |
| `Pseudoinverse.PivotKeepsConsistent` | src/common/colorspaces.c:1894-1904 | A pivot step keeps: every left half is its right half times the Gram matrix. |
| `Pseudoinverse.PivotAdvancesStage` | src/common/colorspaces.c:1894-1904 | A pivot step turns one more left column into that of the identity and spoils no column still needed. |
| `Pseudoinverse.PivotIsNorm` | src/common/colorspaces.c:1895-1897 | A pivot is the squared length of the matrix applied to a vector. |
| `Pseudoinverse.Round` | src/common/colorspaces.c:1894-1904 | One round of the elimination in place is the pivot step, unless the pivot is zero. |
| `Pseudoinverse.Pseudoinvert` | src/common/colorspaces.c:1883-1912 | For any number of rows, no pivot is zero if and only if the columns are independent; then the transpose of the output times the input is the identity, and the input times that transpose is symmetric. |
| `CameraMatrices.ConversionMatricesXyz` | src/common/colorspaces.c:1914-1946 | Which rows are loaded, entry by entry: the nine given numbers and a zero row, or else the twelve of the table; when none are; and that the camera to XYZ matrix is a left inverse of them exactly when their columns are independent. |
| `CameraMatrices.WhiteComesBack` | src/common/colorspaces.c:1967-1999 | A left inverse of rows that sum to one takes the camera's white back to white. |
| `CameraMatrices.ConversionMatricesRgb` | src/common/colorspaces.c:1949-2002 | With nonzero row sums the rows are the camera's responses scaled to sum one, the multipliers undo the scaling, and the inverse is a left inverse that takes white to white; each output may be null. |
| `CameraMatrices.BalancedEntries` | src/common/colorspaces.c:1959-1984 | In numbers: each row times the response of the table row to the D65 white point is its response to the sRGB primaries. |
| `WhiteBalance.ApplyCoeffsToRgb` | src/common/colorspaces.c:2004-2034 | Channel by channel, every pixel becomes camera to RGB applied to the coefficients times RGB to camera applied to it; the fourth value and the rest of the buffer are kept; with input and output the same buffer every pixel turns black. |
| `WhiteBalance.BalanceIsThroughCamera` | src/common/colorspaces.c:2008-2021 | The one matrix the source builds does what going to the camera, multiplying and coming back does. |
| `WhiteBalance.EqualCoefficientsScale` | src/common/colorspaces.c:2004-2034 | Equal coefficients multiply every pixel by that coefficient, if and only if input and output are different buffers or the product is black anyway. |
| `CalculatorSyntax.AdvanceLowersMeasure` | src/common/calculator.c:65-171 | Reading on never raises the measure of remaining work and, past an operator, lowers it, even where a number takes no characters. |
| `CalculatorGrammar.Parses` | src/common/calculator.c:187-314 | At every level, the tokens of an expression of that level are parsed to its tree and nothing after them is consumed. |
| `CalculatorGrammar.Sound` | src/common/calculator.c:187-314 | Whatever is parsed without a missing operand is an expression of that level, and the tokens consumed are its tokens. |
| `CalculatorGrammar.AcceptsIffSentence` | src/common/calculator.c:187-314 | The parser accepts a token sequence if and only if it is a sentence of the grammar. |
| `CalculatorPrint.Unambiguous` | src/common/calculator.c:187-314 | Sentences with the same tokens have the same tree. |
| `CalculatorPrint.ConcretizeMinimal` | src/common/calculator.c:187-314 | The printed form has the fewest parentheses of all ways to write the tree. |
| `CalculatorPrint.FormulaPresents` | src/common/calculator.c:70-171 | Tokens written with a blank between them are scanned back. |
| `CalculatorPrint.SolutionOfPrinted` | src/common/calculator.c:182-378 | The printed form of any tree is accepted with no token left over, and solving it gives the tree's value: binary operators to the left, signs tighter than the power. |
| `CalculatorLaws.SolutionOfSum` | src/common/calculator.c:187-211 | For any sentences, one of any strength and one stronger than a sum: written with `+` or `-` between them, their solutions are added or subtracted. |
| `CalculatorLaws.SolutionOfProduct` | src/common/calculator.c:213-239 | The same for `*`, `/` and `%`. |
| `CalculatorLaws.SolutionOfPower` | src/common/calculator.c:241-262 | The same for `^`. |
| `CalculatorLaws.SolutionOfSigns` | src/common/calculator.c:264-287 | A leading `-` negates the solution, a leading `+` leaves it. |
| `CalculatorLaws.SolutionOfParentheses` | src/common/calculator.c:298-311 | Parentheses around any sentence leave its solution. |
| `CalculatorLaws.TwoNumbers` | src/common/calculator.c:187-311 | The six operators between two numbers, both signs and parentheses, each as the operation of the arithmetic, left and right in order. |
| `CalculatorLaws.Chains` | src/common/calculator.c:187-262 | `u - v - w`, `u / v / w` and `u ^ v ^ w` group to the left. |
| `CalculatorLaws.Mixed` | src/common/calculator.c:187-262 | A product goes before a difference and a power before a quotient, on either side. |
| `CalculatorLaws.SignsAndParentheses` | src/common/calculator.c:264-311 | `- u ^ v` is a power of the negated number; `u * ( v + w )` multiplies the sum. |
| `CalculatorLaws.CommaIsPoint` | src/common/calculator.c:318-330 | Exchanging commas and points anywhere in a formula does not change its solution. |
| `CalculatorLaws.UnknownSkipped` | src/common/calculator.c:70-171 | A character that starts no token is skipped. |
| `CalculatorLaws.StepsTheVariable` | src/common/calculator.c:332-341 | Whatever follows it, a leading `++` or `--` steps the variable. |
| `CalculatorNan.MissingOperand` | src/common/calculator.c:187-314 | A missing operand makes a tree's value not-a-number if no power between it and the root has one on its left or zero on its right; otherwise the value is that of the tree with one in place of such powers, which misses nothing. |
| `CalculatorNan.MalformedAnswer` | src/common/calculator.c:318-378 | The answer to every malformed formula: not-a-number, the value of the repaired tree, or, after a leading increment or decrement, that of the variable. |
| `CalculatorNan.MalformedNanIff` | src/common/calculator.c:318-378 | A malformed formula is answered with not-a-number if and only if it is empty, a token is left over, a missing operand reaches the root, the repaired tree is not-a-number by itself, or it starts with an increment or decrement of a not-a-number. |
| `CalculatorNan.DanglingPower` | src/common/calculator.c:241-262 | `1^` is malformed and is answered with one, not with not-a-number. |
| `CalculatorNan.LeadingIncrement` | src/common/calculator.c:332-341 | `++)` is malformed and is answered with the variable and one. |
| `CalculatorNan.StuckNumber` | src/common/calculator.c:65-68 | A number that takes no characters is read again and again; the answer is not-a-number. |
| `Calculator.Parser.GetToken` | src/common/calculator.c:70-171 | The scanner loop gives the next token and the text after it. |
| `Calculator.Parser.ParseAdditive` | src/common/calculator.c:187-211 | Returns the value of the tree of the additive level and stops where that parse stops; terminates on every text. `CalculatorLaws.SolutionOfSum` says what the operators do. |
| `Calculator.Parser.ParseMultiplicative` | src/common/calculator.c:213-239 | The same for the multiplicative level. |
| `Calculator.Parser.ParsePower` | src/common/calculator.c:241-262 | The same for the power level. |
| `Calculator.Parser.ParseUnaryExpression` | src/common/calculator.c:264-287 | The same for signs. |
| `Calculator.Parser.ParsePrimaryExpression` | src/common/calculator.c:289-314 | The same for numbers and parentheses. |
| `Calculator.Solve` | src/common/calculator.c:318-378 | The solution of every formula, the null and the empty one included; `CalculatorLaws` says what solutions are. |
| `Grouping.PickedIffClosest` | src/common/collection.c:269-281 | One pass that keeps the least weight per group picks exactly the matching image closest to the leader, the one above it when two are equally close. |
| `Grouping.CollapsedShows` | src/common/collection.c:266-287 | With no group expanded, the images shown are these representatives. |
| `Grouping.OnePerGroup` | src/common/collection.c:266-287 | Of every group with a match exactly one image is shown, of the others none. |
| `Grouping.ExpandedShows` | src/common/collection.c:266-287 | With a group expanded: its leader even if filtered out, all matches in it, and one representative of every other matched group. |
| `Grouping.LeaderRepresents` | src/common/collection.c:273-281 | A leader that matches is the representative of its group. |
| `Grouping.OrderIrrelevant` | src/common/collection.c:266-287 | What is shown does not depend on the order of the image table. |
| `DateQuery.ComputeDatetime` | src/common/collection.c:1185-1243 | The struct filled by operator, then by what is read, printed; None for a text that is too short or unreadable. |
| `DateQuery.BoundText` | src/common/collection.c:1185-1243 | Whatever follows the whole fields of a date, the bound is those fields followed by the highest or the lowest values. |
| `DateQuery.DateRead` | src/common/collection.c:1213-1237 | Given how the C library reads each of the six formats, a text is read as the whole fields it starts with, as many as its length calls for. |
| `DateQuery.TextSpelled` | src/common/collection.c:1239-1242 | The printed timestamp, field by field. |
| `DateQuery.InRangeIff` | src/common/collection.c:1195-1211 | The range of dates: months 1 to 12, days 1 to 31, hours to 23, minutes and seconds to 59. |
| `DateQuery.YearBound` | src/common/collection.c:1195-1242 | A year alone is compared as `:01:01 00:00:00` of it for `<` and `>=`, as `:12:31 23:59:59` for `>` and `<=`. |
| `DateQuery.OrderMeaning` | src/common/collection.c:1694-1705 | The order operators, which compare texts, compare the whole fields that were given. |
| `DateQuery.RangeMeaning` | src/common/collection.c:1694-1705 | A range selects what is neither before its first date nor after its last. |
| `DateQuery.EqualMeaning` | src/common/collection.c:1694-1705 | The prefix match compares the whole fields and what follows them. |
| `DateQuery.LawIff` | src/common/collection.c:1185-1302 | For every text that starts with the whole fields read from it: exactly one of before, equal and after selects each timestamp, the other operators are the matching unions and complements, and the range from the date to itself is the prefix match, if and only if nothing follows the fields but the separator that belongs there. |
| `DateQuery.CutLawIff` | src/common/collection.c:1185-1302 | For a date cut from a timestamp that is: if and only if it is not cut inside a two-digit field. |
| `DateQuery.ReaderReads` | src/common/collection.c:1213-1237 | A date reader as assumed of the C library exists. |
| `RuleText.RoundTrip` | src/common/collection.c:1807-1890 | For any rules whose texts hold no `$` and at most 399 characters, reading what was written restores the number, every mode, item and text, an empty text as `%`, and leaves all other settings alone. |
| `RuleText.SameText` | src/common/collection.c:1807-1890 | Writing again what was restored gives the same text. |
| `RuleText.RestoredIff` | src/common/collection.c:1807-1890 | The rules are restored exactly if and only if no text is empty, holds a `$` or is longer than 399 characters. |
| `RuleText.OneRuleWritten` | src/common/collection.c:1807-1837 | The text of one rule: its mode, its item and its text, in this order. |
| `RuleText.OneRuleRead` | src/common/collection.c:1839-1869 | Reading that text sets the number, the mode, the item and the text, and nothing else. |
| `RuleText.NoRulesRead` | src/common/collection.c:1841-1849 | Zero rules are read as one rule that matches everything. |
| `RuleText.NoNumberRead` | src/common/collection.c:1841-1849 | So is a text without a number. |
| `RuleText.BrokenRuleRead` | src/common/collection.c:1858-1887 | A broken rule ends the reading: announced alone it becomes the one that matches everything, otherwise the number drops to the rules before it, which are set. |
| `RuleText.ScanPrinted` | src/common/collection.c:1813-1858 | A printed number is read back, whatever follows that is no digit. |
| `CollectionRules.Conf.Serialize` | src/common/collection.c:1807-1837 | The text of the rules in force, with its terminator, at the start of a buffer that is large enough. |
| `CollectionRules.Conf.Deserialize` | src/common/collection.c:1839-1890 | The settings after reading any text, well formed or not. |
| `Reduction.AllPermuted` | src/common/color_picker.c:31-58 | Sum, minimum, maximum and count do not depend on the order of the pixels. |
| `Reduction.MergedIsAll` | src/common/color_picker.c:60-128 | However the pixels are shared out and in whatever order they are handled, merging the threads' results gives that of one pass. |
| `Reduction.AllBounds` | src/common/color_picker.c:144-176 | The minimum and the maximum bound every value. |
| `Reduction.SumBetween` | src/common/color_picker.c:31-58 | A weighted sum lies between the minimum and the maximum, times the weight of the values. |
| `Reduction.MeanBetween` | src/common/color_picker.c:144-176 | The mean lies between the minimum and the maximum. |
| `PickerPixels.FCOfWord` | src/develop/imageop_math.h:162-165 | The filter colour of a pixel is the one the filter word lists for its row and column, which repeats every eight rows and two columns. |
| `PickedMean.OccursIffCounted` | src/common/color_picker.c:271-304 | A channel is missing from the box exactly when no pixel of it is counted. |
| `ColorPicker.AddPixel` | src/common/color_picker.c:41-53 | One pixel, in place: each channel takes its contribution, for all three layouts. |
| `ColorPicker.AccumulateSequential` | src/common/color_picker.c:144-168 | The loops of one thread take every pixel of the box once. |
| `ColorPicker.AccumulateParallel` | src/common/color_picker.c:60-128 | For any number of threads and any schedule, the thread loops and the merge take the same. |
| `ColorPicker.PickSequential` | src/common/color_picker.c:271-304 | From empty accumulators, for every channel: the mean times the number of its pixels in the box is the sum of their values in the buffer, zero without any but for X-Trans; the minimum and the maximum are values of such pixels and bound them all. Also the answer from any incoming accumulators, and exactly when an X-Trans mean is undefined. |
| `ColorPicker.PickParallel` | src/common/color_picker.c:306-385 | The same, for any number of threads and any schedule. |
| `ColorPicker.Pick` | src/common/color_picker.c:130-142 | The same whichever way the size of the box selects. |
| `ColorPicker.PickedBetween` | src/common/color_picker.c:31-385 | From empty accumulators, in all three layouts, the mean of an occurring channel lies between its minimum and its maximum, which are values of pixels in the box. |

## Left out

- Rounding, overflow and not-a-number in floating point arithmetic: values are real numbers; the calculator is over any arithmetic with a not-a-number value, for malformed formulas one that treats it as annex F of ISO C99 does.
- Where the source divides by zero and goes on with infinities, the model reports an outcome of its own: a zero pivot in the solver and the pseudoinverse, a zero row sum, a missing X-Trans channel.
- LruCache.Cache.Get: one attempt; where the source sleeps and starts over because the entry is locked, the caller gets nothing and may try again. Fairness and progress of such retries are not modelled.
- LruCache.Cache.Remove: one attempt, as above.
- Allocation of entry data, the contents of entries, and the callbacks beyond the cost they set; a client that changes the cost of an entry later.
- `dt_cache_for_all`, timing, address sanitizing and assertions in the cache; the implementation of the read-write lock, taken as POSIX describes its try calls.
- MonotoneHermite.MonotoneHermiteSet: the square root is any function with a nonnegative result whose square is its argument, and the threshold for a flat interval is any positive number.
- CurveSample.CurveDataSample: not for a single sampling point, where the source divides by zero, and for at most twenty anchors; nothing is said of monotonicity across the flat start and the flat end, which are truncated where the curve is rounded.
- `dt_colorspaces_rgb_to_cygm` and everything in `colorspaces.c` that calls a colour management library.
- CameraMatrices.ConversionMatricesXyz: the Adobe coefficient table is a parameter.
- CalculatorSyntax.Scan: `strtod` is any function from a text to a number and a count of characters.
- CalculatorPrint.SolutionOfPrinted: for spellings of numbers that `strtod` reads back, and the variable.
- CalculatorLaws.SolutionOfSum: for such spellings, with a blank between tokens.
- Grouping.CollapsedShows: the filter is any predicate on images; the database engine, sorting and the composition of filters are not modelled.
- DateQuery.ComputeDatetime: `strptime` is any function that reads dates in the six formats of the source, whatever follows them, and `strftime` prints a year with four digits; the regular expressions that split an input are not modelled, nor is the substring search used when there is no date.
- DateQuery.LawIff: for texts with as many whole fields as are read from a text of their length, so not for a year with three blanks after it, which is not readable; for the time an image was taken only; the ranges on import, change, export and print times use another format.
- CollectionRules.Conf.Serialize: for a buffer that is large enough; what a short buffer would hold is not modelled.
- CollectionRules.Conf.Deserialize: numbers too large for an int, and the query that is run afterwards, are not modelled.
- ColorPicker.AddPixel: sum, minimum, maximum and count of a channel are one record, and the slices of the threads in the shared arrays are arrays of their own; the conversion to LCh is any function; an X-Trans region starts at most 600 pixels before the origin, the offset the source adds.
- ColorPicker.Pick: pixel counts beyond 32 bits are not modelled.
- `database.c`, dialogs, widgets, printing, web export and start-up code.
