# Supply-chain linear program: constraint builders

This project models the core of a supply-chain optimisation program. Products
are made in factories and shipped to customers. The program turns per-product
input tables into the data of a linear program:

- one production variable per (product, serving factory), dimF in all;
- one shipment variable per (product, serving factory, customer), dimFC in all;
- one demand row per (product, customer), dimC in all.

The model covers the dimension computation that follows input ingestion
(`processed_inputs`) and the seven builders of the program's optimisation
module:

- the objective vector;
- the demand matrix;
- the per-product inbound and outbound combination matrices;
- the capacity and supply sections;
- the stacked constraint matrix and its right-hand-side vector.

Every builder is a pure function returning `Result<T>`. Each `assert` of the
program becomes an `Err` with a named `Error`. A Python `KeyError` becomes
`MissingKey`, a division by a zero factory count `DivisionByZero`, an
exhausted efficiency generator `EfficiencyExhausted`, and `np.hstack` of
nothing `EmptyConcatenation`.

The program keeps its state in dictionaries keyed by product name. Each
dictionary is built by iterating the product list, so the model holds it as a
sequence aligned with the product list. Groups name products, and a product
named in a group is looked up at its first position in the product list
(`Network.IndexOf`). Matrices are sequences of rows of `real`. The
column-vector inputs of the right-hand side are plain sequences.

The builders check a per-product table only by its number of entries
(`len(table) == len(product_list)`), not by whether its keys are exactly the
products. The model follows the code: a table is accepted when it has one
entry per product. Nothing in the code checks that the product list is
duplicate-free either, although the program's design takes it to be.

Files:

- seqs.dfy: prefix sums, concatenation and chunking of sequences.
- matrices.dfy: rows and matrices, `block_diag`, `hstack`, zero-row stripping, row sums.
- failures.dfy: the error values and `Result`/`Outcome`.
- network.dfy: products, factories, the factory-serves-product indicator and outbound cost arrays (vector or grid, column-major flattening).
- preprocessing.dfy: `processed_inputs`.
- objective.dfy: `generate_objective_vector`.
- demand.dfy: `generate_demand_matrix`.
- combination.dfy: `generate_combination_matrices`.
- sorting.dfy: Python's `sorted` on product names (lexicographic order, insertion sort).
- groups.dfy: the group checks and group sums shared by the capacity and supply builders.
- capacity.dfy: `generate_capacity_matrix`.
- supply.dfy: `generate_supply_matrix`.
- constraints.dfy: `generate_constraints_matrix` and `generate_constraints_vector`.

## Model

| member | source | states |
|---|---|---|
| Preprocessing.CustomerSizes | model/preprocessing.py:171-176 | Each product's customer count is its outbound table's length floor-divided by its factory count; no other input is rejected. The products are visited in order: when the first product that fails has no table the result is MissingKey, and when it has a table but no factories it is DivisionByZero. |
| Preprocessing.ProcessedInputs | model/preprocessing.py:161-187 | Accepted exactly when every product has a non-empty list of factory names and an outbound table. Then factory sizes are the name counts, customer sizes are length // factories, and dimF, dimC and dimFC are Σ factories, Σ customers and Σ factories·customers. |
| Preprocessing.DimFCCountsOutboundCosts | model/preprocessing.py:185-187 | When each flat outbound table's length is a multiple of its factory count, dimFC equals the total number of outbound costs: one shipment variable per cost. |
| Preprocessing.DimensionsPositive | model/preprocessing.py:178-187 | With at least one product, and at least as many outbound costs as factories per product, dimF, dimC and dimFC are all positive. |
| Network.FlattenLayout | model/optimization.py:50-53 | Column-major flattening puts the cost of (customer c, factory f) at position f·customers + c: factory-major, customer-minor. |
| Network.FlattenPositive | model/optimization.py:50-53 | The flattened table is positive exactly when every cell of the table is. |
| Objective.ObjectiveVector | model/optimization.py:37-72 | Accepted exactly when both cost tables have one entry per product, the dimensions are positive, the stacked inbound costs number dimF, the flattened outbound costs number dimFC, and every cost is positive. TableCountMismatch is reported exactly for a wrong table count. An accepted vector has dimF + dimFC positive entries. |
| Objective.CostsPositive | model/optimization.py:70-72 | The stacked vector is positive if and only if every product's inbound and outbound costs are positive. |
| Objective.ObjectiveInboundLayout | model/optimization.py:45-48 | Inbound cost k of product i sits at position (Σ inbound lengths of earlier products) + k, inside the first dimF entries. |
| Objective.ObjectiveOutboundLayout | model/optimization.py:50-53 | Flattened outbound cost k of product i sits at dimF + (Σ outbound sizes of earlier products) + k. |
| Objective.ObjectiveFitsProcessedInputs | model/optimization.py:55-64 | With one inbound cost per factory name and flat outbound tables whose length is a multiple of the factory count, both length checks pass against the computed dimF and dimFC. |
| Demand.DemandMatrix | model/optimization.py:117-155 | Accepted exactly when all sizes are positive, the product list is non-empty, both size tables have one entry per product, Σ customers = dimC and Σ factories·customers = dimFC. An accepted matrix is dimC × (dimF + dimFC), non-negative, and zero on the dimF production columns. |
| Demand.TilesShape | model/optimization.py:137-147 | Product i's tiled identity has customers[i] rows and factories[i]·customers[i] columns, so the block diagonal has Σ customers rows and Σ factories·customers columns. |
| Demand.DemandRowLayout | model/optimization.py:137-142 | Demand row (product i, customer q) is zeros, then the unit row q tiled once per factory of i at i's shipment offset, then zeros. |
| Demand.DemandRowSum | model/optimization.py:137-142 | Each demand row sums to its product's factory count: one unit of shipment from each factory. |
| Demand.DemandNoZeroRow | model/optimization.py:137-151 | No row of an accepted demand matrix is all zero. |
| Demand.DemandAcceptsProcessedInputs | model/optimization.py:117-130 | The dimensions computed by processed_inputs always pass the demand checks, for a non-empty product list whose products each have a customer. |
| Combination.InboundSlots | model/optimization.py:242-252 | Drawing one product's slots from the efficiency stream succeeds exactly when the stream still holds one value per serving factory. It then advances the stream by that many values and yields the reference slots: a 1×1 block of the next value for a serving factory, an empty 1×0 block otherwise. |
| Combination.ProductSlots | model/optimization.py:242-253 | Threading the stream through the products succeeds exactly when every product has factory names and the stream holds one value per serving slot of all products. The blocks drawn equal the closed-form InboundBlocks. |
| Combination.InboundMatrixShape | model/optimization.py:274-278 | The inbound matrix has one row per (product, factory slot) and one column per serving slot. |
| Combination.OutboundMatrixShape | model/optimization.py:280-284 | The outbound matrix has one row per (product, factory slot) and one column per (serving factory, customer). |
| Combination.CombinationMatrices | model/optimization.py:206-301 | Accepted exactly when both lists and the efficiencies are non-empty, all efficiencies are positive, and no product has more names than there are factories. Every product must also have factory names and a customer count where one is read. The efficiency values of all products, taken in product order as one stream, must number at least the serving slots of all products; one product may draw values listed under another. The serving slots must number dimF and the shipment columns dimFC. An empty product list gives EmptyProductList. There is one slice per product, each with one row per factory slot. |
| Combination.CombinationRoundTrip | model/optimization.py:286-301 | Stacking the slices back in product order gives the unsplit inbound and outbound matrices. |
| Combination.CombinationInboundRow | model/optimization.py:242-253 | Row j of product i's inbound slice is minus a stream value, placed in that slot's production column, when factory j serves i; otherwise it is all zero. |
| Combination.CombinationOutboundRow | model/optimization.py:263-272 | Row j of product i's outbound slice is ones over the product's customers, placed at that factory's shipment columns, when factory j serves i; otherwise it is all zero. |
| Combination.EfficiencyOfSlot | model/optimization.py:242-250 | When each product lists one efficiency per serving factory, the value drawn for slot (i, j) is product i's efficiency for its k-th serving factory, with k the number of serving factories before j. |
| Groups.ValidateGroups | model/optimization.py:348-382 | Passes exactly on valid groups: at least one group, no empty group, no two groups with the same products in any order, no product twice in a group, only listed products. Each error (EmptyGroupList, EmptyGroup, RepeatedGroup, RepeatedProduct, UnknownProduct) is reported exactly when its check is the first of these, in this order, to fail. |
| Sorting.Sort | model/optimization.py:360-362 | Sorting a group returns the same products, each as often, in lexicographic order. |
| Sorting.SortedUnique | model/optimization.py:360-368 | Two sorted sequences holding the same elements the same number of times are equal. |
| Sorting.SortSame | model/optimization.py:360-368 | Two groups sort to the same sequence if and only if they hold the same products the same number of times. |
| Groups.SameProductsMultiset | model/optimization.py:357-368 | The repeated-group test, which compares sorted groups, holds for two groups exactly when they are reorderings of each other. |
| Groups.GroupSumMask | model/optimization.py:386-393 | When the slices follow the service pattern, row r of a group sum is non-zero exactly when factory r is in the group's factory union. |
| Groups.GroupSumRows | model/optimization.py:391-413 | With a duplicate-free factory list containing the union, stripping a group sum keeps exactly one row per factory of the union. |
| Groups.StripConcat | model/optimization.py:391-393 | Stripping zero rows from stacked group sums is stripping each group sum and stacking the results. |
| Groups.StackedRows | model/optimization.py:400-413 | The rows kept from the stacked group sums number the union sizes added over the groups. |
| Groups.StackedMasksAgree | model/optimization.py:503-521 | The inbound and outbound group sums lose exactly the same rows. |
| Groups.InboundFollowsService | model/optimization.py:242-253 | Every inbound slice of an accepted combination is non-positive, and its row r is zero exactly when factory r does not serve the product. |
| Groups.OutboundFollowsService | model/optimization.py:263-272 | With positive customer counts, every outbound slice is non-negative, and its row r is zero exactly when factory r does not serve the product. |
| Groups.SingletonGroupSum | model/optimization.py:386-390 | A group of one product sums to that product's own matrix. |
| Groups.SingletonKeptRows | model/optimization.py:386-393 | The rows kept for a group of one product are that product's matrix without its all-zero rows. |
| Groups.SingletonServingRows | model/optimization.py:386-413 | For a one-product group whose matrix follows the service pattern, one row is kept per factory serving the product. |
| Groups.KeptRows | model/optimization.py:386-393 | The rows kept from a table's stacked group sums keep the table's width, and none of them is all zero. |
| Capacity.CapacityMatrix | model/optimization.py:348-418 | Group errors are reported as such. Otherwise the section is accepted exactly when every grouped product has factory names, the slices are dimFC wide, and the kept rows number capacity_rows (the union sizes summed over groups). The section is capacity_rows × (dimF + dimFC), has no zero row, and each row is dimF zeros followed by the group's summed outbound row. |
| Capacity.CapacityByGroup | model/optimization.py:386-393 | The kept capacity rows are each group's non-zero summed rows, group after group. |
| Capacity.CapacityRowsTheorem | model/optimization.py:400-413 | For service-pattern slices, a duplicate-free factory list and valid groups, the row-count check cannot fail: acceptance depends only on the width being dimFC. |
| Capacity.CapacityAfterCombination | model/optimization.py:386-413 | The outbound slices of an accepted combination always give an accepted capacity section with capacity_rows rows. |
| Supply.SupplyMatrix | model/optimization.py:466-547 | Group errors are reported as such. Otherwise the section is accepted exactly when grouped products have names, the two sides are dimF and dimFC wide, and each side keeps supply_rows rows. Each row is the inbound group-sum row beside the outbound one, and no row is zero. |
| Supply.SupplyStripsAlike | model/optimization.py:503-521 | Stripping the two sides separately equals stripping the side-by-side stack, so the kept rows line up. |
| Supply.SupplyRowsTheorem | model/optimization.py:523-542 | For service-pattern slices, a duplicate-free factory list and valid groups, both row-count checks pass: acceptance depends only on the two widths. |
| Supply.SupplyAfterCombination | model/optimization.py:503-542 | The slices of an accepted combination always give an accepted supply section with supply_rows rows. |
| Constraints.ConstraintsMatrix | model/optimization.py:591-613 | Accepted exactly when the stack of the demand, capacity and supply sections is (dimC + capacity_rows + supply_rows) × (dimF + dimFC) and has no all-zero row or column; the accepted matrix is that stack. ShapeMismatch is reported exactly when the stack has the wrong shape, and DegenerateMatrix otherwise. |
| Constraints.ConstraintsSections | model/optimization.py:591-593 | Cutting an accepted matrix at the section heights gives back the three sections. |
| Constraints.ConstraintsRowsNonZero | model/optimization.py:608-613 | An accepted demand section, stacked with capacity and supply sections that have no zero rows, has no zero row. |
| Constraints.ConstraintsAfterBuilders | model/optimization.py:595-613 | Sections as the builders return them always pass the shape check, so the matrix is accepted exactly when no column is all zero. |
| Constraints.ConstraintsVector | model/optimization.py:663-691 | Accepted exactly when the three section heights are positive and both volumes have the right length and are positive. The checks run in the program's order: NonPositiveDimension exactly for a zero height, else ShapeMismatch exactly for a wrong length, else NonPositiveVolume exactly for a non-positive volume. The vector is the demand volumes, then the capacity volumes, then supply_rows zeros, and it is non-negative. |
| Constraints.ConstraintsAgree | model/optimization.py:688-691 | Built from the same section heights, an accepted vector has one entry per row of an accepted matrix. |

## Left out

- Reading the input workbook (`raw_inputs`), the `preprocess` driver, post-processing, the program driver, random input generation and the data holder. They are I/O or orchestration. Their results are parameters here.
- The `optimize` function has an empty body.
- The `isinstance` checks. The model's types already fix what they test.
- The check that every product has at least zero factory names (model/optimization.py:215-220) can never fail, so it is not modelled. A product without names is rejected earlier, by `processed_inputs`' division.
- A product listed twice in the product list. A Python dictionary keeps the last value for a key, while the model looks a product up at its first position.
- Per-product matrices of different shapes in one group sum. numpy would broadcast or raise; the model requires one shared shape for all slices (`Groups.Table.Valid`).
- `np.vstack` of sections of different widths raises an exception. `Constraints.ConstraintsMatrix` reports it as ShapeMismatch, through the same shape test.
- numpy column vectors of shape (n, 1) are modelled as sequences of length n.
- Floating point: entries are mathematical reals, so sums and negations are exact.
- Product names are strings, compared by code point as Python compares `str`. Groups of numeric or mixed-type product names, which `sorted` orders differently or rejects, are not modelled.
- Constraints.ConstraintsAfterBuilders: stops at "accepted exactly when no column is all zero". Whether every column is covered depends on the groups chosen, and is not derived from the builders' inputs.
- Combination.CombinationMatrices: states which inputs are accepted and the empty-product-list error, but not which error each other rejection reports.
- Objective.ObjectiveVector: states which inputs are accepted and when TableCountMismatch is reported, but not which error each other rejection reports.
