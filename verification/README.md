# Proofs beside the trading pipeline and the article stores

This project models the stateful cores of the repository in Dafny 4.11 and proves what
they are for. `dafny verify dfyconfig.toml` checks all of it.

- **Backtest engine** (`EngineSpec`, `Engine`, `EngineLaws`, `EngineStructure`, `EngineRun`,
  `EngineSweep`, `EngineFate`): one object walked through a window day by day. Every phase of
  the day is a method proved against a specification function, and the functions carry the
  laws: the account of a day, what becomes of every asset, what every run keeps, the waterfall
  of the cash sweep.
- **Two paths, one net asset value** (`CrossSection`, `CrossSectionLaws`, `Ranking`,
  `ScoreLaws`, `TopSelect`, `Columns`, `Mining`): the report path ranks the full row and hands
  the engine every candidate; the mining path ranks compact rows, selects a few from a bounded
  buffer and hands over a prefix. Both loops are proved to produce the same net asset values,
  and the scores to weigh how the pool's members stand. Rounding is any weakly monotone
  function, so distinct scores may merge.
- **Weight lattice** (`Lattice`, `LatticeSize`, `LatticeIndex`, `Neighbors`): enumeration,
  closed-form size, combinatorial index and one-hop neighbours.
- **Layering and windows** (`Binning`, `Layers`, `LayerLaws`, `Windows`): equal-mass binning from
  a histogram and a bitmap, and the snapshot ring behind the sliding windows.
- **Cross-section neutralisation** (`Neutral`, `NeutralLaws`).
- **Feature graph** (`FeatureGraph`): the depth-first order, its rejections, the two phases.
- **Pool cache** (`StableSort`, `Events`, `PoolCache`, `EventCache`): event chains, the cache
  file byte for byte, and reading one out of the other.
- **Month scheduler** (`Schedule`, `ScheduleRuns`, `ScheduleServed`, `ScheduleAvail`): planning
  from files and clock alone, over any sequence of runs.
- **Article sync** (`Drain`; `JsonLines`, `AccountDisk`, `AccountHistory`, `AccountStore`,
  `AccountDiscover`, `AccountSync`; `WebDisk`, `WebStore`, `WebFlow`, `WebDrain`; `Scan`,
  `ScanOrder`, `ScanSpec`, `Scanner`, `ScanRuns`): a concurrent drain as a step relation over
  every interleaving, two crash-safe stores whose every file step is recorded, the drain over
  the one with its discovery back to a watermark, sync after sync, a two-stage download over
  the other, and the resumable page scans, killed anywhere. `AccountFormat` exhibits a format
  of index lines with everything the account store asks of one.
- **Inline code** (`CodeSpan`): printing a code span and reading it back.

Money, prices, scores and returns are reals; a missing value is `None`. Days are numbers.

## What turned out otherwise

- `OpenWriteFreezes`, `WholeUnlessBoundary`, `BoundaryWrite`, `MidnightWrite`: a monthly file
  fetched while its month was open is frozen, without the promised refetch of the whole closed
  month, exactly when the write falls on or after month-end plus lookback. That happens to a
  run on that very day, and to one planned the day before and written past midnight.
- `QueuedTwiceAborts`, `RefusedIff`: `add_pending` compares a batch with what was known before
  it, not with itself (`MovedPostQueuedTwice`, `BatchRepeats`), so a post read on two pages of
  one shallow scan is queued twice. The download that follows then aborts at the second commit
  of the post when both copies arrive. Some order of completions leads to such an abort exactly
  when the queue holds a post twice; a store opened anew drops the repeat.
- `AfterTorn`, `TornRefused`: the reader drops a torn last line of the index but leaves it in
  the file, so the next commit is readable exactly when no line was torn; otherwise the two
  lines join into one that is no entry, and every later opening is refused.
- `CapLeavesGap`, `GapHidden`, `CappedRun`: a capped shallow scan leaves the known posts the
  older part of the list exactly when its cap allows all the new ones. What it leaves out is
  found by a later uncapped one exactly when the cap was a single page.
- `TwoLists`: posts known through another list hide new ones behind them; one default site
  scans two lists into one store (`app/web/site/guoren.py:145`). `LearnsAll` says exactly when
  a shallow scan learns a whole list, whatever is known of it.
- `FinishedIff`, `AnchorMoved`: a deep scan marked finished knows every listed post exactly when
  all was known, before it, behind the page it set out from. When the anchor's post moves to
  the front and newer ones push it back to where it was, that fails.
- `ShallowSuffix`, `DeepSuffix`, `TiedKilled`: a killed scan leaves the known posts the older
  part of the list exactly when the new ones stand newest first by their time, strictly. The
  time is the site's text, empty when it is missing (`app/web/site/guoren.py:91`); of three
  new posts with one time, the stable sort queues the newer two first, and a kill after them
  hides the third.
- `UndatedMissed`, `UndatedSkipped`, `DiscoverIff`: an account's message without a time counts
  as published at zero, older than the watermark of any store that has indexed a dated one. The
  discovery that meets it passes it over and stops at its page, so it is never found, and once
  a newer post is committed neither are the new ones behind it. After a complete discovery
  every listed post is held exactly when nothing unheld lay behind a page that would halt the
  reading and every post listed as older than the watermark was held, or listed again as wanted.
- `PassesIff`, `AlikeStopped`, `ThreeAlike`: the check after the selection passes exactly when
  the day ranking itself drops in score between the last place kept and the last that head and
  margin reach. So it stops some days whose selection is right, every day of alike members
  among them, even when all of them were picked.
- A comment in `cpp/src/misc/schedule.cpp:129` says an empty append leaves the file's time
  alone; `cpp/src/misc/parquet.cpp:103-107` touches it. The model follows the code.

## Model

| member | source | states |
|---|---|---|
| Engine.Engine.Step | cpp/include/backtest/engine.hpp:169-344 | A whole day: the new cash, holdings, turnover and end value are those of the day's specification, and the buying scan looks at exactly as many candidates as its rule says, at most 2 * hold_n. |
| Engine.Engine.DecideDay | cpp/include/backtest/engine.hpp:176-250 | Forced sales, valuation, sale marks and buy list of the day, with the counters. |
| Engine.Engine.ExecuteDay | cpp/include/backtest/engine.hpp:252-343 | Sales, purchases and cash sweep, from the decided plan to the book at the end of the day. |
| Engine.Engine.SellDelisted | cpp/include/backtest/engine.hpp:176-193 | Erasing while walking sells exactly the delisted holdings, at today's price less the selling cost. |
| Engine.Engine.SellMarked | cpp/include/backtest/engine.hpp:252-271 | Sells exactly the marked holdings that trade and have a price, and counts them. |
| Engine.Engine.MarkHoldings | cpp/include/backtest/engine.hpp:210-229 | Marks for sale exactly the holdings out of the exit ranks that no limit blocks. |
| Engine.Engine.ScanBuys | cpp/include/backtest/engine.hpp:231-250 | The buying scan with its early exits takes the first free slots' worth of wanted candidates, and looks at exactly as many as its rule says. |
| Engine.ScanBound | cpp/src/mine/mine.cpp:108-112 | With distinct candidates the buying scan never looks past rank 2 * hold_n, wherever it stops. |
| Engine.Engine.BuyNew | cpp/include/backtest/engine.hpp:288-305 | Each purchase spends at most the target and never more than the cash. |
| Engine.Engine.SweepCash | cpp/include/backtest/engine.hpp:307-335 | What cash is left tops up the tradable holdings below target in descending order of deficit. |
| Engine.Engine.PayDeficits | cpp/include/backtest/engine.hpp:323-334 | The paying loop equals the recursive top-up and changes no asset. |
| Engine.Engine.Reset | cpp/include/backtest/engine.hpp:110-115 | Back to the state before the window's first day. |
| EngineLaws.PrefixSuffices | cpp/src/mine/mine.cpp:108-116 | A candidate list cut at or beyond both read bounds leads to the same day. |
| EngineLaws.StepAccount | cpp/include/backtest/engine.hpp:169-344 | End value is entry value less the selling cost of everything sold, forced sales included, and the buying cost inside what was spent; turnover is sold plus spent. |
| EngineLaws.LiquidateWorth | cpp/include/backtest/engine.hpp:254-271 | Selling changes the worth by exactly the selling cost. |
| EngineStructure.BuysNotHeld | cpp/include/backtest/engine.hpp:218-249 | With exit ratio at least one, nothing on the buy list is held, marked for sale or not. |
| EngineStructure.BuyListSound | cpp/include/backtest/engine.hpp:231-250 | Every buy is among the first hold_n ranks, not limit-flagged, listed once, and no more than the free slots. |
| EngineStructure.StepKeeps | cpp/include/backtest/engine.hpp:205-305 | A day keeps the book sound: cash not negative, shares positive, no asset twice, every holding priced, and the count bounded by max(hold_n, kept) plus blocked sales. |
| EngineStructure.StepPositive | cpp/include/backtest/engine.hpp:202-203 | Positive worth stays positive through the day, so the decision-value check holds. |
| EngineRun.RunKeeps | cpp/include/backtest/engine.hpp:169-344 | On every day of every run over forward-filled prices: the day's invariants, a positive decision value and a positive net asset value. |
| EngineRun.HoldingsBounded | cpp/include/backtest/engine.hpp:100-104 | On a run where no intended sale is blocked, at most hold_n assets are held. |
| EngineRun.CutRun | cpp/include/backtest/engine.hpp:117-122 | Cutting every day's list at the read bound changes neither the books nor the values of any run. |
| EngineSweep.SweepWaterfall | cpp/include/backtest/engine.hpp:307-335 | The sweep is a waterfall: cash ends at zero or every payable holding got its full deficit, a holding is paid anything only when all ahead of it were paid in full, and every other share count is unchanged. |
| EngineSweep.DeficitOf | cpp/include/backtest/engine.hpp:309-320 | The payable holdings are exactly the tradable, unflagged, priced ones below target, each with its own deficit. |
| EngineFate.StepFate | cpp/include/backtest/engine.hpp:169-344 | The fate of every asset on a day, from quotes, candidates and entry book alone. Held at the end is what was held and did not leave, or came in. What does not leave keeps at least its shares, exactly those when suspended or limit-flagged. What leaves without being delisted is gone. Leaving is being delisted, or out of the exit ranks, unflagged, not suspended and priced. |
| EngineFate.AfterSales | cpp/include/backtest/engine.hpp:176-271 | After the sales exactly the leaving holdings are gone, and every other has the shares it had. |
| EngineFate.SalesAreLeaving | cpp/include/backtest/engine.hpp:254-271 | What is sold on a day is what the leaving holdings are worth at the close, and cash grows by that less the selling cost. |
| EngineFate.BuysExact | cpp/include/backtest/engine.hpp:231-250 | The candidate of rank k is on the buy list if and only if it is among the first hold_n, unflagged, not held unless delisted, and fewer such candidates stand ahead of it than slots are free. |
| EngineFate.BuysFunded | cpp/include/backtest/engine.hpp:288-305 | Each buy with a price costs a full slot while the cash lasts, then what is left, then nothing; what is not bought is not touched. |
| EngineFate.SweepSweeps | cpp/include/backtest/engine.hpp:307-335 | The sweep only adds, to trading positions below target and never beyond it; if it leaves cash, every trading position has cost the target. |
| EngineFate.StepSizes | cpp/include/backtest/engine.hpp:273-335 | The sizes at the end of a day: a slot is the worth after the sales over hold_n; no position is larger than a slot unless it already was, each one that comes in got a slot or what cash was left, in rank order, and if cash remains every trading position has cost a slot. |
| CrossSection.PctRank | cpp/src/feature/cs.cpp:98-125 | The in-place ranking gives every finite value its tie-averaged percentile and leaves the rest. |
| CrossSectionLaws.PctMeaning | cpp/src/feature/cs.cpp:114-124 | The percentile is (#smaller + (#equal - 1) / 2) / (m - 1), or one half when alone. |
| CrossSectionLaws.PctOrder | cpp/src/feature/cs.cpp:98-125 | Percentiles lie in [0, 1], keep strict order and keep ties. |
| CrossSectionLaws.SumIsHalf | cpp/src/feature/cs.cpp:98-125 | The percentiles of any row sum to half their number. |
| CrossSectionLaws.CompactPct | cpp/src/mine/mine.cpp:249-284 | Ranking the masked full row and ranking the compacted pool give every member the same percentile. |
| CrossSectionLaws.WinsSymmetric | cpp/src/feature/cs.cpp:110-123 | Counting who beats whom, ties as one half each, is symmetric; the sum law rests on it. |
| Ranking.RankedOrdered | cpp/src/strategy/columns.cpp:224-228 | The ranking is strictly ordered by score descending, then asset ascending. |
| Ranking.OrderedUnique | cpp/src/strategy/columns.cpp:224-228 | Two so ordered arrangements of the same candidates are equal: the order leaves no choice. |
| Ranking.SameItems | cpp/src/mine/mine.cpp:434-454 | The scores summed over the compact block are those summed over the masked full rows, candidate by candidate. |
| TopSelect.InsertAt | cpp/src/mine/mine.cpp:459-471 | One candidate into the bounded buffer by shifting in place equals inserting and keeping the first cap. |
| TopSelect.PickTop | cpp/src/mine/mine.cpp:456-471 | The fixed-length insertion selection computes the kept list. |
| TopSelect.TopKSplits | cpp/src/mine/mine.cpp:456-471 | The kept list and some rest make up all the candidates, and nothing left out beats anything kept. |
| TopSelect.BoundarySuffices | cpp/src/mine/mine.cpp:473-488 | When the boundary check holds, the kept list divided and sorted starts with exactly the ranking of all the divided candidates, although division may merge scores. |
| TopSelect.SelectTop | cpp/src/mine/mine.cpp:441-488 | The buffer ends as what is picked, divided and in order; the check passes exactly when the code's condition holds, and then the first n_keep entries are the day ranking's. |
| TopSelect.HeadIsRanking | cpp/src/mine/mine.cpp:434-440 | The same for any split of the day's candidates, tied to the day ranking the report uses. |
| TopSelect.NothingLeftOut | cpp/src/mine/mine.cpp:484-487 | When every member fits into head and margin the selection is the whole ranking. |
| TopSelect.PickedScores | cpp/src/mine/mine.cpp:456-488 | Whether the check passes or not, the places picked have the very scores of the first places of the day ranking, although division may merge scores. |
| TopSelect.PassesIff | cpp/src/mine/mine.cpp:484-487 | For a pool of any size the code's check, made on what was picked, passes if and only if head and margin are one or, in the day ranking, the last place kept scores above the last that head and margin reach. |
| TopSelect.AlikeStopped | cpp/src/mine/mine.cpp:484-487 | So every day whose members are all alike, however many, is stopped when some are kept and some are not, though what is picked is the beginning of the ranking. |
| TopSelect.ThreeAlike | cpp/src/mine/mine.cpp:484-487 | Three members with one value, two to keep: such a day, with the whole ranking picked. |
| Columns.CsScore | cpp/src/strategy/columns.cpp:168-204 | The score column: weighted in-pool percentiles over the absolute weight sum, zero outside the pool. |
| ScoreLaws.CellStanding | cpp/src/strategy/columns.cpp:186-195 | What the score reads of a factor is how the member stands among the pool: how many are below it, those level with it counting half. |
| ScoreLaws.ScoreLead | cpp/src/strategy/columns.cpp:168-200 | With exact arithmetic the difference of two members' scores times the sum of the weights without their signs is the signed sum of the weights times their differences in standing; outside the pool the score is zero. |
| ScoreLaws.Dominance | cpp/src/strategy/columns.cpp:186-200 | However the sums are rounded, a member that stands no worse than another in every factor, as the weight's sign has it, scores no less. |
| ScoreLaws.OneFactor | cpp/src/strategy/columns.cpp:186-200 | One factor alone: scores follow its values under a positive weight and run against them under a negative one. |
| ScoreLaws.TurnedScores | cpp/src/strategy/columns.cpp:164-166 | Turning every weight's sign turns the sign of every exact score. |
| ScoreLaws.LeadRanks | cpp/src/strategy/columns.cpp:209-236 | With exact arithmetic the day ranking lists one member before another if and only if it leads, by the signed sum of the differences in standing, or does not trail and has the lower number. |
| Columns.CsRank | cpp/src/strategy/columns.cpp:209-236 | The rank column holds the 1-based place in the ranking, and zero outside it. |
| Columns.RebuildCands | cpp/src/backtest/backtest.cpp:376-397 | Two scans of the rank column rebuild exactly the ranking. |
| Columns.ReportCands | cpp/src/backtest/backtest.cpp:376-397 | From panel to candidates along the report path: the day ranking. |
| Mining.BuildBlock | cpp/src/mine/mine.cpp:249-285 | The member table and the block of compact percentiles. |
| Mining.RunReport | cpp/src/backtest/backtest.cpp:367-402 | The report loop's values are the window's net asset values. |
| Mining.MineDay | cpp/src/mine/mine.cpp:507-526 | One day on the mining path leaves the engine and the values on the same track as the report. |
| Mining.RunBatch | cpp/src/mine/mine.cpp:495-528 | A batch runs through exactly when on no day the report's own ranking ties from the last place kept to the last that head and margin reach, and then every weighting ends with the net asset values of the report path. |
| Lattice.Bijection | cpp/src/mine/mine.cpp:984-992 | Rank and row number are inverse bijections between the lattice and [0, P). |
| Lattice.PointAtRank | cpp/src/mine/mine.cpp:944-982 | Every vector of norm M is emitted, at the row its rank says. |
| Lattice.RankOfPoint | cpp/src/mine/mine.cpp:944-982 | Every row emitted is a lattice point whose rank is its row, so none comes twice. |
| Lattice.RowsOrdered | cpp/src/mine/mine.cpp:944-982 | The rows come in ascending order of their first differing coordinate, in the last one the positive before the negative. |
| Lattice.PointsCount | cpp/src/mine/mine.cpp:997-1011 | The number of rows is the count table's entry. |
| LatticeSize.Binom | cpp/src/mine/mine.cpp:929-936 | The running division is exact at every step and yields the binomial coefficient. |
| LatticeSize.ClosedForm | cpp/src/mine/mine.cpp:927-942 | The sum over the number of nonzero coordinates equals the number of lattice points. |
| LatticeSize.Size | cpp/src/mine/mine.cpp:928-942 | The loop computes the number of lattice points. |
| LatticeIndex.BuildLattice | cpp/src/mine/mine.cpp:946-982 | The recursive enumeration over a shared buffer emits exactly the specified rows. |
| LatticeIndex.Recurse | cpp/src/mine/mine.cpp:955-975 | One level of the enumeration, its own prefix restored. |
| LatticeIndex.Index.FillTable | cpp/src/mine/mine.cpp:997-1009 | The table holds, for every tail and budget, how many ways there are to use it up. |
| LatticeIndex.Index.Lookup | cpp/src/mine/mine.cpp:1013-1028 | The table sum is the vector's row number in the enumeration. |
| LatticeIndex.Index.Total | cpp/src/mine/mine.cpp:1011 | The table's corner is the number of lattice points. |
| Neighbors.ForEachNeighbor | cpp/src/mine/mine.cpp:1035-1060 | Reports exactly the adjacent points, each once, at least one, never the point itself, all rows in range, the buffer restored after every move. |
| Neighbors.AdjacentSymmetric | cpp/src/mine/mine.cpp:1031-1034 | Adjacency is symmetric. |
| Neighbors.MovedOnLattice | cpp/src/mine/mine.cpp:1031-1034 | Moving one unit stays on the lattice. |
| Neighbors.MovedUnique | cpp/src/mine/mine.cpp:1039-1059 | Two adjacent points determine which unit moved, so no neighbour is met twice. |
| FeatureGraph.ReachableTopoOrder | cpp/include/feature/graph.hpp:55-88 | Fails exactly when a null node, a cycle or a time-series node on a cross-section node is reachable, naming one; otherwise the order holds every reachable node once, dependencies first. |
| FeatureGraph.Visitor.Visit | cpp/include/feature/graph.hpp:68-83 | One visit finishes everything below a node, or stops at a real fault. |
| FeatureGraph.FinishedIsGood | cpp/include/feature/graph.hpp:46-54 | A finished dependency-first order rules out every fault among the reachable nodes. |
| FeatureGraph.TwoPhases | cpp/include/feature/registry.hpp:89-95 | Running all of the time-series order and then all of the cross-section order respects every dependency. |
| FeatureGraph.ComputedIsGood | cpp/include/feature/registry.hpp:80-95 | Where two such phases exist that compute the roots, no null, no cycle and no time-series node on a cross-section one can be reached. |
| FeatureGraph.FilterAxis | cpp/include/feature/graph.hpp:116-125 | Filtering by axis keeps exactly the nodes of the axis, in order. |
| FeatureGraph.CountAxis | cpp/include/feature/graph.hpp:105-114 | The count is the length of the filtered order. |
| FeatureGraph.BuildPhases | cpp/include/feature/registry.hpp:80-95 | Time-series nodes, then cross-section nodes, each reachable node once and behind everything it depends on; it fails exactly when no two such phases exist, and then with a fault that can be reached. |
| Binning.CurveInside | cpp/src/mine/mine.cpp:794-811 | Inside a bucket the cumulative return rises at the bucket's mean. |
| Binning.Close | cpp/src/mine/mine.cpp:801-810 | Filling a bin to the brim writes exactly its share of the curve and opens the next. |
| Layers.Binner.Feed | cpp/src/mine/mine.cpp:771-812 | Taking a bucket whole, splitting it over any number of bins, or absorbing it keeps the sweep's account. |
| Layers.Binner.Finish | cpp/src/mine/mine.cpp:814-815 | With all mass fed the sweep stands in the last bin, and every bin holds its share. |
| Layers.SweepWord | cpp/src/mine/mine.cpp:766-813 | A word's bits, lowest first, visit exactly the touched cells in ascending order and clear them. |
| Layers.SweepTable | cpp/src/mine/mine.cpp:766-813 | The whole bitmap sweep feeds exactly what a full ascending sweep of the table would, and leaves table and bitmap clear. |
| Layers.Scatter | cpp/src/mine/mine.cpp:753-759 | The table holds every bucket's count and sum, and the bitmap marks exactly the touched ones. |
| Layers.LayerDay | cpp/src/mine/mine.cpp:753-815 | The bitmap sweep equals a full ascending sweep, each bin holds its equal share, the bins together hold all the returns, and table and bitmap end clear. |
| Layers.BucketMonotone | cpp/src/mine/mine.cpp:738-751 | Bucket numbers follow the order of the scores. |
| Layers.BucketAffine | cpp/src/mine/mine.cpp:738-751 | A positive affine map of scores and range changes no bucket number. |
| Layers.LayerScores | cpp/src/mine/mine.cpp:738-815 | One weighting on one day, from scores to bin returns. |
| Layers.LayeredAffine | cpp/src/mine/mine.cpp:719-751 | No positive affine map of the scores changes any bin return, so the division by the weight sum may be left out. |
| Layers.BinSumCurve | cpp/src/mine/mine.cpp:761-815 | The bins up to any point hold exactly the cumulative return up to its edge. |
| LayerLaws.BucketSlice | cpp/src/mine/mine.cpp:741-751 | A bucket is an equal slice of the score range, the last one with its upper end. |
| LayerLaws.SlicesApart | cpp/src/mine/mine.cpp:741-751 | Scores more than a slice apart lie in different buckets, the lower one in the lower. |
| LayerLaws.SpreadWhen | cpp/src/mine/mine.cpp:741-751 | Scores pairwise more than a slice apart share no bucket. |
| LayerLaws.LayersSort | cpp/src/mine/mine.cpp:761-813 | Whenever no two scores share a bucket, each bin holds its equal share of the returns sorted by score, the one at a boundary split in proportion. |
| LayerLaws.AlikeLayers | cpp/src/mine/mine.cpp:793-810 | When all scores are alike every bin holds the mean of all returns: ties are shared out. |
| Windows.RunWindows | cpp/src/mine/mine.cpp:829-860 | Every window is written once, in order, between its own two ends. |
| Windows.RingNext | cpp/src/mine/mine.cpp:829-850 | A month-end's snapshot overwrites only a slot no open window needs. |
| Windows.WindowCount | cpp/src/mine/mine.cpp:589 | The number of windows counts exactly those that fit. |
| Windows.WindowSums | cpp/src/mine/mine.cpp:604-615 | The differences passed on are the direct sums of returns and squares over exactly the window. |
| Windows.WindowLayers | cpp/src/mine/mine.cpp:815-822 | Over a window every layer's value is multiplied by one plus each of its own returns in it, from one at the start. |
| Neutral.Neutralize | cpp/src/feature/cs.cpp:159-211 | The three passes in place give every participating sample its residual and clear the rest. |
| Neutral.TakesPart | cpp/src/feature/cs.cpp:155-159 | A row takes part, and keeps a value, exactly when it and its size are finite and its industry is one of the groups, the unknown one with number zero included. |
| NeutralLaws.GroupSumsVanish | cpp/src/feature/cs.cpp:154-158 | Within every industry the residuals sum to zero. |
| NeutralLaws.SizeOrthogonal | cpp/src/feature/cs.cpp:154-158 | The residuals are orthogonal to size, also when size does not vary within industries. |
| NeutralLaws.LeastSquares | cpp/src/feature/cs.cpp:154-158 | No intercepts per industry and slope leave a smaller sum of squares. |
| NeutralLaws.Idempotent | cpp/src/feature/cs.cpp:159-211 | Neutralising twice is neutralising once. |
| NeutralLaws.RowHoldsResiduals | cpp/src/feature/cs.cpp:196-210 | The row written keeps the same samples, and they hold exactly those residuals. |
| StableSort.SortStable | cpp/include/feature/pit.hpp:135-144 | Equal keys keep their order of pushing. |
| StableSort.StableUnique | cpp/include/feature/pit.hpp:135-144 | Ascending and stable determines the result. |
| Events.EventStore.ResizeChains | cpp/include/feature/pit.hpp:129-131 | A store is built from empty chains, one per asset, with nothing pushed. |
| Events.EventStore.PushChain | cpp/include/feature/pit.hpp:132-134 | A push extends its own asset's chain by one at its end, and no other. |
| Events.PushedNext | cpp/include/feature/pit.hpp:132-134 | What counts as pushed for an asset: nothing at first, and with each push of its own one more behind the others. |
| Events.EventStore.SortChains | cpp/include/feature/pit.hpp:135-144 | Every chain becomes the stable sort of what was pushed for its asset. |
| Events.EventStore.Finalize | cpp/include/feature/pit.hpp:145-160 | Offsets and arena hold every asset's chain between its own offsets. |
| Events.ChainAt | cpp/include/feature/pit.hpp:168-172 | Between its offsets the arena holds exactly the asset's chain. |
| Events.EventStore.At | cpp/include/feature/pit.hpp:168-177 | Reading an asset of a flattened store gives the stable sort of its pushes. |
| PoolCache.CacheVisitor.WriteSection | cpp/include/feature/pit.hpp:382-392 | Writing pads to eight, appends the bytes and records where they are. |
| PoolCache.SizeOf | cpp/include/feature/pit.hpp:377-382 | Size mode adds up to exactly the length of the written body. |
| PoolCache.PlacesApart | cpp/include/feature/pit.hpp:385-392 | Sections start at multiples of eight, do not overlap and lie inside the file. |
| PoolCache.Dump | cpp/src/feature/load.cpp:169-201 | The file is header, table with final offsets, and body. |
| PoolCache.TryMap | cpp/src/feature/load.cpp:128-166 | A miss exactly when a header check fails or the table does not fit; a mismatch when the section count differs; otherwise the table's places. |
| PoolCache.MapsBack | cpp/src/feature/load.cpp:128-201 | Mapping what was dumped under its own key is neither a miss nor a mismatch, for any number of sections, none included. |
| PoolCache.MapRestores | cpp/src/feature/load.cpp:128-201 | Mapping a dumped file restores every section's bytes, aligned and inside the file. |
| PoolCache.StaleMisses | cpp/src/feature/load.cpp:145-146 | A dumped file never maps under another key. |
| EventCache.BuiltDumpedMapped | cpp/src/feature/load.cpp:128-201 | A store built, dumped among other sections and mapped again returns for each asset the stable sort of exactly its events. |
| Schedule.PlanMonths | cpp/src/misc/schedule.cpp:95-153 | The plan is exactly the due fetches of the months in span, ascending, each month at most once. |
| Schedule.FileMaxVd | cpp/src/misc/schedule.cpp:77-91 | The watermark is the latest readable date, or none. |
| ScheduleRuns.AppendsLater | cpp/src/misc/schedule.cpp:138-144 | Everything appended is later than everything on file. |
| ScheduleRuns.RunsKeep | cpp/src/misc/schedule.cpp:95-153 | Over any runs, failed fetches included, every file holds its own month's rows, none twice. |
| ScheduleRuns.CloseFreezes | cpp/src/misc/schedule.cpp:112-123 | A run that finds a month closed leaves it frozen, even if the write falls on the day before in UTC, unless its fetch did not come back. |
| ScheduleRuns.FrozenForever | cpp/src/misc/schedule.cpp:112-123 | A frozen month is never planned again and its file never changes. |
| ScheduleRuns.PassedOver | cpp/src/misc/schedule.cpp:119-123 | A closed month is passed over exactly when it was written on or after its end plus the lookback. |
| ScheduleRuns.NotAgainToday | cpp/src/misc/schedule.cpp:124-131 | A month just written is not planned again that day within the window. |
| ScheduleRuns.OpenWriteFreezes | cpp/src/misc/schedule.cpp:113-123 | A fetch planned while its month is open is no whole refetch, and its month is passed over from then on if and only if it is written on or after month-end plus lookback. |
| ScheduleRuns.WholeUnlessBoundary | cpp/src/misc/schedule.cpp:113-118 | After any runs from an empty disk, a closed month that is passed over holds the answer to a whole refetch made after closing if and only if the last run that fetched it found it closed; when that run wrote on its own day, that is on every day but the boundary. |
| ScheduleRuns.BoundaryWrite | cpp/src/misc/schedule.cpp:113-118 | Two runs, the second on the boundary day, after which a month is frozen without ever having been refetched whole. |
| ScheduleRuns.MidnightWrite | cpp/src/misc/schedule.cpp:113-118 | The same with the second run planned the day before and written a second after midnight. |
| ScheduleServed.RunsMirror | cpp/include/misc/schedule.hpp:23-28 | With a service whose past does not change, every file is exactly the served rows up to the day reached, none missing and none twice. |
| ScheduleServed.CaughtUp | cpp/include/misc/schedule.hpp:18-28 | After a run, a month in span is on file as served, and up to the day then available if and only if it was fetched now, is open, or its last plan saw it closed or reached its end; so always when its writing took less than the lookback. |
| ScheduleAvail.FetchDays | cpp/src/misc/schedule.cpp:125-147 | An open month's fetch asks for exactly the complete days of the month, from the first one wanted or the one after the last on file; a day is complete when past, or today from the availability hour on. |
| ScheduleAvail.ClosedDays | cpp/src/misc/schedule.cpp:112-123 | A closed month's fetch asks for all of it. |
| ScheduleAvail.PlannedIff | cpp/src/misc/schedule.cpp:125-147 | An open month is planned if and only if it was not written within the window and has a complete day beyond what is on file. |
| ScheduleAvail.ByTheHour | cpp/src/misc/schedule.cpp:69-76 | Before the availability hour no open month is fetched up to today; from it on, the current one without a file is. |
| ScheduleAvail.CompleteByClock | cpp/include/misc/schedule.hpp:14-17 | What a plan takes for complete is complete by the clock. |
| ScheduleAvail.RunsSettle | cpp/include/misc/schedule.hpp:14-17 | Over any runs from nothing, against a service that may answer anything for a day until its availability hour, every file holds exactly the final rows of its days up to the one reached, and that one is complete. |
| Drain.StepKeeps | app/gzh/src/sync.cpp:99-195 | Every step of every thread keeps the invariant: dispatched entries are the committed, the holes, those in flight and those fetched but uncommitted, at most workers beyond the processed ones, and sleepers never outnumber held articles. |
| Drain.Reachable | app/gzh/src/sync.cpp:99-195 | So does every interleaving from the start, for any number of workers. |
| Drain.Forward | app/gzh/src/sync.cpp:111-145 | An entry only moves forward; a commit or a hole is for good. |
| Drain.NeverStuck | app/gzh/src/sync.cpp:116-126 | No reachable state is stuck although holes notify nobody: some thread can take a step that is not mere waiting. |
| Drain.StepShrinks | app/gzh/src/sync.cpp:111-195 | Every step that is not mere waiting uses something up. |
| Drain.Completes | app/gzh/src/sync.cpp:153-195 | From every reachable state the drain can run to its end. |
| Drain.Finale | app/gzh/src/sync.cpp:193-201 | At the end all workers have joined and every entry is exactly one commit or one hole, committed once. |
| JsonLines.ReadLines | app/gzh/src/store.cpp:110-131 | The reading loop yields exactly the complete nonempty lines. |
| JsonLines.TornDropped | app/gzh/src/store.cpp:108-121 | An append cut short anywhere reads as if never begun. |
| JsonLines.AppendReadable | app/gzh/src/fsutil.hpp:91-102 | An append is read back as its own line if and only if the file ended with a whole line. |
| AccountDisk.JsonlReads | app/gzh/src/store.cpp:133-139 | A file written entry by entry reads as exactly those entries. |
| AccountHistory.StepKeeps | app/gzh/src/store.cpp:214-260 | Every single file step keeps the index free of repeats with its directories complete and unchanged, and loses no post from both index and queue. |
| AccountHistory.HistoryKeeps | app/gzh/src/store.cpp:143-260 | So does any history of steps through any crashes and restarts in which commits go on only while no index line is torn; the index only grows. |
| AccountHistory.TornRefused | app/gzh/src/store.cpp:108-131 | A commit after a torn line joins it to a line that is no entry: the index never reads again, whatever is appended later. |
| AccountStore.Store.constructor | app/gzh/src/store.cpp:143-187 | Opening what any crash left: the index as it reads, the queue without what is indexed, one more step of the disk's history, and fit for further commits exactly when no index line was torn. |
| AccountStore.Store.SetPending | app/gzh/src/store.cpp:189-212 | The new queue is the merged one, and index and queue together lose no post; also after a torn index line. |
| AccountStore.MergedFacts | app/gzh/src/store.cpp:190-209 | The merged queue is ascending in time, holds each post once, and exactly the unindexed posts of both sides. |
| AccountStore.Store.Commit | app/gzh/src/store.cpp:214-260 | Committing, with or without a directory: at every point where it may stop a reader finds the index without the post or with it, the queue still holding it until then, and every change is a step of the disk's history; the line names the article's directory and the number of its files, or for a tombstone none. |
| AccountStore.AfterTorn | app/gzh/src/store.cpp:108-121 | After a torn line the next commit reads as its own entry if and only if the file was whole. |
| AccountDiscover.ReadPage | app/gzh/src/profile.cpp:230-248 | One page: exactly the posts neither older than the watermark nor indexed are collected, once each, and the marks say whether anything was crossed, filtered or new. |
| AccountDiscover.FetchNew | app/gzh/src/profile.cpp:217-275 | The page loop finds what the specification says: it ends at the first page that crosses the watermark, merely repeats or is the last, and cut short or refused it finds nothing. |
| AccountDiscover.CollectedFacts | app/gzh/src/profile.cpp:234-249 | A page adds exactly the wanted posts, each once. |
| AccountDiscover.FoundFresh | app/gzh/src/profile.cpp:234-248 | What any reading finds is listed, found once, not indexed and not older than the watermark, if there is one. |
| AccountDiscover.FetchStops | app/gzh/src/profile.cpp:254-267 | Of a complete listing it reads up to the first page that halts it and no further, and finds exactly the wanted posts up to there. |
| AccountDiscover.DiscoverIff | app/gzh/src/sync.cpp:205-221 | After a complete discovery, from any stock and for any listing, every listed post is in index or queue if and only if behind each page that would halt it all posts are held already or wanted up to that page, and every post listed as older than the watermark is held already or has its id listed again as wanted. |
| AccountDiscover.OlderIsHeld | app/gzh/src/profile.cpp:235-239 | If no unheld post is older than a held one, every post listed as older than the watermark is held. |
| AccountDiscover.OrderlyCovers | app/gzh/src/profile.cpp:252-262 | If, besides, the listing descends in time and every page has a post that no earlier page has, nothing lies behind a page that would halt the reading. |
| AccountDiscover.StepKeeps | app/gzh/include/wxmd/store.hpp:21-25 | A commit, a crash before the queue is pruned, an opening, such a discovery or one cut short, and new posts no older than anything held: each keeps that no unheld post is older than a held one, and what is held stays held. |
| AccountDiscover.RunsHold | app/gzh/src/sync.cpp:216-220 | Over any runs of these index and queue together hold every listed post older than the watermark. |
| AccountDiscover.FromNothing | app/gzh/src/sync.cpp:216-220 | So over all runs that start from an empty store. |
| AccountDiscover.NeverFound | app/gzh/src/profile.cpp:235-239 | A post not held and listed as older than the watermark is taken up by no discovery. |
| AccountDiscover.StaysMissed | app/gzh/src/profile.cpp:235-239 | Over any later runs it stays missed. |
| AccountDiscover.UndatedMissed | app/gzh/src/profile.cpp:185-188 | A post without a time between two new ones: both halves of the condition fail, only the newer one is found, and the other one never. |
| AccountDiscover.UndatedSkipped | app/gzh/src/profile.cpp:185-188 | A new post and one without a time on a single page: nothing lies behind it, yet the undated one is not found, then or ever. |
| AccountSync.NoneRefused | app/gzh/src/store.cpp:216 | In every state any interleaving of the drain reaches, the post being stored is in no index: with a queue free of repeats and of indexed posts the store never refuses a commit. |
| AccountSync.StoreNext | app/gzh/src/sync.cpp:177-190 | One commit of the drain is one commit of the store, and threads, queue and store stay in step. |
| AccountSync.Drain | app/gzh/src/sync.cpp:87-202 | The drain over the real store, scheduled in any way: a run of the step relation; the index has gained exactly the posts the log names, in its order, the rest is still queued, and no post is lost. |
| AccountSync.Drained | app/gzh/src/sync.cpp:193-201 | When it came to its end, the committed posts are indexed and exactly the holes are queued. |
| AccountSync.LatestTime | app/gzh/include/wxmd/store.hpp:35-45 | The watermark is the latest time in the index, whatever its order. |
| AccountSync.Discover | app/gzh/src/sync.cpp:205-221 | A discovery over the store: the queue is merged with what was found; one cut short changes nothing, in memory or on disk. |
| AccountSync.Sync | app/gzh/src/sync.cpp:225-243 | Drain, discover, drain: what one sync makes of index and queue, however far it got. |
| AccountSync.SyncKeeps | app/gzh/src/sync.cpp:225-243 | However a sync ends, no post held is lost. |
| AccountSync.SyncMissesNone | app/gzh/src/sync.cpp:225-243 | A sync that got through a complete listing, from any stock, leaves every listed post in index or queue if and only if, when it looked for new posts, nothing lay behind a page that would halt it and every post listed as older than the watermark was held or listed again as wanted. |
| AccountSync.OrderlySync | app/gzh/src/sync.cpp:225-243 | So always when no unheld post is older than a held one, the listing descends in time and its pages do not merely repeat. |
| AccountSync.SyncsHold | app/gzh/src/sync.cpp:214-220 | Sync after sync from an empty store, each ended anywhere, those that got through served a whole descending listing whose pages do not merely repeat and whose posts not listed before are no older than any that were: every post they ever listed is in index or queue ever after. |
| WebDisk.SafeNameFacts | app/web/common/store.py:36-41 | The name made of a title is nonempty, of at most 80 characters, free of all that a file name may not hold and does not begin with a dot; a title that is such a name already, without spaces or dots at its ends, is kept. |
| WebDisk.DirRoundTrip | app/web/common/store.py:43-51 | A committed directory's name gives back its post, whatever its date and title. |
| WebDisk.NotStaging | app/web/common/store.py:117-118 | No committed directory is taken for the staging area. |
| WebDisk.StepKeeps | app/web/common/store.py:15-21 | Every single file step keeps the disk good and loses nothing. |
| WebDisk.HistoryKeeps | app/web/common/store.py:15-21 | Through any crashes and restarts: every index line has its complete directory, unchanged ever since, no post is indexed twice, and no known post is lost. |
| WebDisk.StepSingle | app/web/common/store.py:110-126 | A step gives an indexed post a second directory exactly when it indexes one whose directories bear another name. |
| WebDisk.TidyOneName | app/web/common/store.py:110-126 | On a disk without orphans a post not indexed has no directory at all. |
| WebStore.Store.constructor | app/web/common/store.py:83-126 | Opening what any crash left: queue without indexed posts and repeats, staging empty, exactly the directories of indexed posts kept, untouched, no post with a second one if none had. |
| WebStore.Store.AddPending | app/web/common/store.py:140-157 | Queues exactly the rows of posts not known before, line by line. |
| WebStore.Store.Pending | app/web/common/store.py:159-160 | The queue lists every known post not yet committed. |
| WebStore.Store.CompactPending | app/web/common/store.py:162-167 | Drops the committed rows and loses no known post. |
| WebStore.Store.Commit | app/web/common/store.py:192-226 | The directory is complete under its final name before the index line; the new disk and lookups in full; tidy stays tidy, and no post gets a second directory. |
| WebStore.BatchRepeats | app/web/common/store.py:142-146 | The queue stays free of repeats if and only if the batch's own new rows are. |
| WebStore.MovedPostQueuedTwice | app/web/common/store.py:142-146 | A post read twice in one batch is queued twice. |
| WebFlow.Reached | app/web/common/sync.py:237-303 | Whatever finishes in whatever order: each row handed out is in exactly one place, both windows hold, together at most workers + backlog - 1, and no post is committed twice. |
| WebFlow.WindowSizes | app/web/common/sync.py:237-255 | In numbers: at most workers pages and at most three times the workers, less one, pages and posts in flight together; and after filling up the queue is handed out, the workers busy or the backlog full. |
| WebFlow.SettlingShrinks | app/web/common/sync.py:272-303 | Every settled download uses something up, waiting and filling up give nothing back. |
| WebFlow.NeverStuck | app/web/common/sync.py:250-303 | A run neither stopped nor through can always go on. |
| WebFlow.Finale | app/web/common/sync.py:272-308 | A run that comes through leaves every row of the queue as exactly one commit or one hole, and of two rows of one post at least one as a hole. |
| WebFlow.StreakIff | app/web/common/sync.py:257-268 | A run is stopped by a streak if and only if, since a post last came through both stages, as many became holes as the limit says: told from the log of completions alone. |
| WebFlow.LogTells | app/web/common/sync.py:277-302 | Committed are the posts that came through both stages, in that order, but for a last one refused; holes are exactly those that did not. |
| WebFlow.RefusedIff | app/web/common/store.py:192-195 | Some order of completions makes the store refuse a commit if and only if the queue holds a post twice. |
| WebDrain.Pipeline.Run | app/web/common/sync.py:237-308 | The run over the store follows the state machine to where it is through or stopped, the index growing by exactly the committed posts. |
| WebDrain.Pipeline.HandOutFrom | app/web/common/sync.py:250-255 | Handing out posts one by one until a window is full or the queue ends is the machine's filling up. |
| WebDrain.Pipeline.SettleNet | app/web/common/sync.py:277-288 | A fetched page goes to the image stage or becomes a hole, and a long enough streak of holes stops the run. |
| WebDrain.Pipeline.SettleImg | app/web/common/sync.py:289-302 | Complete images commit the post in the store unless it is indexed already, which stops the run; a missing one makes a hole. |
| WebDrain.BatchIs | app/web/common/sync.py:223-233 | A run takes the first rows of the queue up to its limit, or all without one, each as it is but for a missing title. |
| WebDrain.Drain | app/web/common/sync.py:218-308 | One run over a store's queue or its first rows: no known post is lost, the counts are those of the commits and holes, the queue file ends with the posts not committed, and with a queue free of repeats only a streak of holes stops it, as many in a row as the limit says. |
| WebDrain.QueuedTwiceAborts | app/web/common/store.py:192-195 | A post queued twice by one batch: an order of completions that aborts the run at its second commit. |
| Scan.PagesBound | app/web/common/sync.py:63-64 | The page count is just enough for all. |
| Scan.AnchorEvolves | app/web/common/sync.py:16-19 | The anchor's promise survives posts put in front, known or not, and any deletions, as long as the anchor is not among those in front. |
| Scan.SuffixEvolves | app/web/common/sync.py:20 | The known posts stay the older part of the list when only unknown ones come in front. |
| Scanner.Scanner.LocateAnchor | app/web/common/sync.py:99-110 | The first page from the hint on that holds the anchor, or the oldest page. |
| Scanner.Scanner.DiscoverDeep | app/web/common/sync.py:113-169 | From any state it saves exactly the specified states, is marked finished exactly when its cap allows the pages from where it sets out, and then all is known if and only if all was known behind there; if the anchor keeps its promise, every state saved keeps it; it counts the posts learnt. |
| Scanner.Scanner.DiscoverShallow | app/web/common/sync.py:172-215 | On any list and from any state it saves exactly the specified states and counts the posts learnt; when the known posts were the older part they are so after it, and all is known, if and only if the cap allows the new ones, and at every kill point if and only if the new ones stand newest first, too. |
| ScanOrder.ByTimeReverses | app/web/common/sync.py:67-74 | Sorting a newest-first page by time reverses it. |
| ScanOrder.LineKeepsSuffix | app/web/common/sync.py:175-178 | Any number of lines queued oldest first leaves the known posts the list's older part. |
| ScanOrder.StretchIff | app/web/common/sync.py:142-178 | Queueing a stretch that reaches the older part line by line: every line leaves the known posts the older part if and only if the new ones in it stand newest first by their time. |
| ScanSpec.LocatesFirst | app/web/common/sync.py:106-110 | Looking for the anchor ends at the first page from the hint on, within the search window, that holds it, and at the oldest page without one. |
| ScanSpec.DeepSound | app/web/common/sync.py:113-169 | Every state a deep scan saves, capped or not, forced or not, keeps the anchor's promise. |
| ScanSpec.DeepLearns | app/web/common/sync.py:142-165 | It learns exactly the pages from its start to where its cap stops it, and finishes exactly when that is the newest. |
| ScanSpec.FinishedIff | app/web/common/sync.py:126-165 | From any state: a deep scan is marked finished exactly when it was or its cap allows the pages from where it sets out, and then every listed post is known if and only if, before the scan, all was known behind the page it set out from. |
| ScanSpec.DeepSuffix | app/web/common/sync.py:142-165 | Forced on a list whose older part is known, it keeps it the older part at the end of every page, and at every kill point if and only if the new posts of every page it reads stand newest first by their time. |
| ScanSpec.ReadsToStop | app/web/common/sync.py:184-209 | A shallow scan reads to the first page that is the last one, its cap, or the second in a row with nothing new; of an empty list it reads none. |
| ScanSpec.LearnsAll | app/web/common/sync.py:184-209 | Whatever the list's order and whatever is known of it: a shallow scan makes all of it known if and only if all is known behind the pages its cap allows and behind every two pages in a row with nothing new. |
| ScanSpec.CapLeavesGap | app/web/common/sync.py:204-209 | When the known posts are the older part, they are so after a shallow scan if and only if its cap allows the pages of the new ones. |
| ScanSpec.ShallowSuffix | app/web/common/sync.py:175-178 | Then they are so at every point where the scan may be killed if and only if its cap allows the new posts and these stand newest first by their time. |
| ScanRuns.AlwaysSound | app/web/common/sync.py:14-20 | Over any runs of either scan, capped, forced or killed anywhere, other lists feeding the store and the list changing between them without its anchor moving to the front: at and behind the anchor all is known, and a run is marked finished only when its whole list is. |
| ScanRuns.AlwaysOlderPart | app/web/common/sync.py:14-23 | Over such runs of a store of its own, shallow scans capped only beyond the new posts, and after a finished deep scan killed only while the new posts stand newest first: once a deep scan finished, the known posts are the older part, and the next uncapped shallow scan learns the rest. Runs that end ask for no order. |
| ScanRuns.GapHidden | app/web/common/sync.py:204-209 | What a cap left out is found by a later uncapped shallow scan of the list if and only if the cap was below the number of quiet pages that stop a scan. |
| ScanRuns.CappedRun | app/web/common/sync.py:204-209 | A scan capped at two pages of three: the third post is found by no later shallow scan. |
| ScanRuns.TwoLists | app/web/site/guoren.py:145 | Two lists in one store: a new post behind two known through the other list is found by no shallow scan. |
| ScanRuns.TiedKilled | app/web/common/sync.py:175-178 | Three new posts of one time, killed after two lines: the third is found by no later shallow scan. |
| ScanRuns.AnchorMoved | app/web/common/sync.py:126-140 | The anchor moved to the front: a deep scan marked finished that missed a post, as `FinishedIff` says it must. |
| CodeSpan.Delimiter | app/gzh/src/markdown.cpp:601-624 | The search ends with the shortest delimiter that is no maximal backtick run of the content. |
| CodeSpan.ApplyInlineCode | app/gzh/src/markdown.cpp:583-627 | The printed span, and that reading it by section 6.1 of CommonMark 0.31.2 gives the content with its line endings turned into spaces. |
| CodeSpan.MeetsRuns | app/gzh/src/markdown.cpp:603-619 | Leaping over whole runs meets exactly the maximal runs of a length. |
| CodeSpan.ThreePasses | app/gzh/src/markdown.cpp:588-590 | The three replacements together turn exactly the line endings into spaces. |
| CodeSpan.RoundTrip | app/gzh/src/markdown.cpp:592-626 | For every nonempty content and every delimiter that is no run of it, the padded span reads back as the content. |
| CodeSpan.PaddingNeeded | app/gzh/src/markdown.cpp:592-599 | The content is printed without padding if and only if it reads back as itself without. |

## Left out

- Floating point: money arithmetic, percentiles and regressions are exact reals; only the scores are rounded, by an arbitrary weakly monotone function. Ranks stored as floats are exact integers here, as they are below 2^24.
- The binning tolerances 1e-9 and 1e-12 are zero, bitmap words are sets of bit positions, and one weighting is layered at a time rather than a batch.
- The engine's check `holdings.size() <= cap()` is a runaway guard that long blocked sales can exceed; the exact bound is proved instead.
- How `std::sort` breaks equal deficits is a parameter of the sweep: any descending permutation.
- The forward fill of prices (`load_market`) is taken as its result: a price once known stays known and positive.
- Integer widths: 64-bit lattice sizes and 8-bit lattice coordinates are unbounded here. Event offsets are 32 bits wide, and `Events.EventStore.Finalize` asks for fewer events than that; file sizes and keys in the cache are below 2^64.
- `regress`, annualised ratios, kernel density, de-duplication of weightings, reports and labels.
- Recorder calls, trade records and watch lists around the engine.
- The drain's thread creation and heartbeat output; a worker's notification of the committer is covered by the committer's timed wait.
- AccountSync.Drain: asks that queued posts name no directory yet, as those a listing gives never do (`app/gzh/src/profile.cpp:102-106`).
- AccountDiscover.RunsHold: asks that posts new in the listing be no older than anything held, because `UndatedMissed` and `UndatedSkipped` show it fails otherwise; a listed post exactly as old as the watermark may be unheld, and is then not passed over.
- AccountDiscover.FetchNew: the pages are those served to one discovery, whatever the listing did meanwhile; retries and the pause between pages are not modelled.
- Parquet, JSON, memory mapping and file systems: files are rows, lines or bytes. A line of JSON is any text that reads back as its entry; a directory of files is a map.
- Torn lines in the web store: its line appends are atomic here, as its own description assumes. The account store's are not.
- `SafeName` strips ordinary spaces and dots; other Unicode white space is not distinguished.
- The calendar is any strictly increasing sequence of month starts, and `meta_fresh`, which plans single-file tables, is not modelled.
- Pinned posts, and posts appearing or vanishing while a run reads the list, are outside the scan's hypotheses, as the code's own comments say.
- ScheduleAvail.RunsSettle: asks that the lookback not be negative and that the hour of a plan be the clock's, as `now_hour_local` has it.
- ScanRuns.AlwaysSound: asks that the anchor's post not move to the front between runs, because `AnchorMoved` shows it fails otherwise; one site re-sorts its list by last reply (`app/web/common/sync.py:69-71`), so its anchor can move.
- ScanRuns.AlwaysOlderPart: asks for lists that no other list shares posts with and that only new posts come in front of, because `TwoLists` shows it fails otherwise, and of killed runs for new posts in order, because of `TiedKilled`; one site meets neither, and `ScanSpec.LearnsAll` is what holds of it.
- AccountHistory.TornRefused: takes the beginning of an index line followed by another line to be no JSON value (`NeverJoins`), because the JSON syntax itself is not modelled; `AccountFormat` has a format of which that is proved.
- WebFlow.RefusedIff: images may complete in any order, whatever number of threads fetches them; the runs that show the abort have one page of images in flight at a time.
- AccountStore.Store.Commit: distinct posts are taken to have distinct directory names, because sanitised names could in principle collide.
- Network, proxies, throttling, DOM building and the rest of the Markdown rules, which call into code that is not part of this model.
