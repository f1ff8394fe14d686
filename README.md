# Microeconomy graph tool: the calculation engine in Dafny

This project models the numerical core of a small microeconomics tool. The
tool takes observed price/quantity samples for a demand curve and a supply
curve. It fits a straight line to each by ordinary least squares, intersects
the two lines to find the market equilibrium, and computes the consumer and
producer surplus at that point. The model covers the fitting, equilibrium
and surplus functions of `funct.py` and the input checks, parsing and
calculation steps of `main.py`. Their properties are proved over exact real
arithmetic.

Modules, in dependency order:

- `Wrappers` (`wrappers.dfy`): `Option` and `Result`. A Python `ValueError`
  becomes `Err(message)` carrying the source's exact message text.
- `Numbers` (`numbers.dfy`): the tolerance `1e-10`, `Abs`, and `ExtReal`.
  `ExtReal` is the reals plus `+inf` and `-inf`, with only the arithmetic
  the engine performs on `float("inf")`.
- `Lines` (`lines.dfy`): a fitted line as an (intercept, slope) pair, and the
  price intercept `-b0 / b1`. The price intercept is `inf` when the slope is
  exactly zero.
- `Regression` (`regression.dfy`): `calculate_sums`, `calculate_slope`,
  `calculate_intercept` and `perform_calculations`. These are proved against
  a reference definition of a least-squares line: the residuals sum to zero
  and are orthogonal to the independent values.
- `Equilibrium` (`equilibrium.dfy`): `calculate_equilibrium`.
- `Surplus` (`surplus.dfy`): `calculate_surpluses`. Both branches are proved
  against a reference definition: the area under the line
  `quantity = b0 + b1 * price` between two prices, via an antiderivative.
- `PlotData` (`plot_data.dfy`): the computational part of
  `_calculate_plot_data`.
- `Text` (`text.dfy`): Python's `str.split(",")`, `str.strip()` and the
  `str.isspace()` character set.
- `DataManager` (`data_manager.dfy`): `validate_data` and `parse_data_string`.
  Python's `float()` is a function parameter `string -> Option<real>`.
- `Calculator` (`calculator.dfy`): `calculate_curves` and
  `calculate_equilibrium_and_surpluses`.

Two behaviours of the source are kept as written:

- `calculate_curves` fits each curve with the quantities as the independent
  variable and the prices as the dependent one (main.py:142-149). The fitted
  line therefore reads `price = b0 + b1 * quantity`.
- `calculate_equilibrium` and `calculate_surpluses` read the same
  coefficients as `quantity = b0 + b1 * price` (funct.py:167-170).

The model follows the code in both places. The lemmas state each property
in the reading the code actually uses.

Two further behaviours of the source are worth stating:

- Errors carry the source's own messages, for example "Cannot calculate
  slope: denominator is too close to zero" and "Equilibrium point has
  negative values".
- `parse_data_string` turns a conversion failure into the empty list
  (main.py:76-77). It does not surface the error.

## Model

| member | source | states |
|---|---|---|
| Lines.PriceIntercept | funct.py:257-264 | the price intercept is `+inf` exactly when the slope is exactly zero, never `-inf`, and a finite one is a price where the line's quantity is zero |
| Lines.PriceInterceptUnique | funct.py:257-259 | for a non-zero slope, the finite intercept is the only price with zero quantity |
| Regression.CalculateSums | funct.py:13-52 | fails exactly on a length mismatch (the first check) or a count below 2 (the second check), with their messages; otherwise returns Σx, Σy, Σx², Σxy and Σy² of the samples |
| Regression.CalculateSlope | funct.py:55-86 | fails exactly when \|Σx² − (Σx)²/n\| < 1e-10, with the zero-denominator message; otherwise the slope solves the centred normal equation |
| Regression.CalculateIntercept | funct.py:89-103 | the intercept solves the first normal equation n·b0 + b1·Σx = Σy |
| Regression.PerformCalculations | funct.py:106-141 | empty input, a length or count mismatch, and too few points each give their own message in the source's order; for acceptable input it fails exactly when the denominator is within the tolerance; every line it returns is a least-squares fit (residuals sum to zero and are orthogonal to x) |
| Regression.NormalEquationsFromSums | funct.py:38-45 | a line is a least-squares fit of the samples exactly when its coefficients solve the two normal equations written with the sums |
| Regression.FitPassesThroughMean | funct.py:102 | the fitted line passes through (mean x, mean y) |
| Regression.LeastSquaresFitUnique | funct.py:78-103 | with a non-zero denominator there is only one least-squares line |
| Regression.ExactDataIsFit | funct.py:78-103 | any line through every sample is a least-squares fit of them |
| Regression.CollinearDataRecovered | funct.py:78-103 | if every yᵢ = a + b·xᵢ and the slope guard passes, the result is exactly (a, b), in that order |
| Regression.TwoPointsOnFittedLine | funct.py:78-103 | two samples fit exactly when (x0 − x1)²/2 reaches the tolerance, and then both lie on the fitted line |
| Regression.DenominatorIsSquaredDeviation | funct.py:78 | the slope's denominator equals the sum of squared deviations from the mean |
| Regression.DenominatorNonNegative | funct.py:78 | the slope's denominator is never negative |
| Regression.DenominatorZeroWhenConstant | funct.py:78 | identical independent values give a zero denominator |
| Regression.ConstantIndependentFails | funct.py:78-80 | samples whose independent values are all equal always fail with the zero-denominator message |
| Equilibrium.CalculateEquilibrium | funct.py:144-175 | refuses as parallel exactly when \|ds − ss\| < 1e-10; every returned point lies on both lines and has price ≥ 0 and quantity ≥ 0; the only other error is the negative-values one |
| Equilibrium.CrossingUnique | funct.py:167-170 | lines with different slopes share at most one point |
| Equilibrium.EquilibriumIsTheCrossing | funct.py:162-175 | once the slopes are apart by the tolerance, the result is the common point of the lines when it is non-negative and the negative-values error otherwise |
| Equilibrium.CrossingExists | funct.py:167-170 | lines whose slopes are apart by the tolerance always have a common point |
| Surplus.CalculateSurpluses | funct.py:178-218 | fails exactly when q ≤ 0 or p ≤ 0; otherwise 2·CS = q·(dpi − p) and CS is `inf` when dpi is; 2·PS = (q + sqi)·p when sqi > 0, else 2·PS = q·(p − spi), with an infinite spi giving `-inf` |
| Surplus.TrapezoidRule | funct.py:204-216 | the area under a line between two prices is the width times the mean of the end quantities |
| Surplus.ConsumerSurplusIsAreaUnderDemand | funct.py:204-206 | for a sloped demand line, CS is the area under it from the equilibrium price to the price where quantity reaches zero |
| Surplus.ProducerSurplusFromZeroPrice | funct.py:209-212 | when the supply intercept is positive, PS is the area under the supply line from price 0 to the equilibrium price |
| Surplus.ProducerSurplusFromPriceIntercept | funct.py:213-216 | otherwise, for a sloped supply line, PS is the area under it from its price intercept to the equilibrium price |
| Surplus.SurplusesPositive | funct.py:201-218 | a downward demand line and an upward supply line meeting at a positive point give positive, finite CS and PS |
| PlotData.CalculatePlotData | funct.py:248-289 | an equilibrium error propagates unchanged; a crossing on an axis gives the positive-values error; otherwise the equilibrium is positive and on both lines, the price intercepts are −b0/b1 (or `inf`), and the quantity intercepts and coefficients echo the inputs |
| PlotData.SurplusesAreAreas | funct.py:252-274 | in any plot data, CS is `inf` exactly for a flat demand line and is otherwise the area under demand above the equilibrium price; PS is finite and is the area under supply, from price 0 or from the supply price intercept by the sign of the supply intercept |
| PlotData.SlopedCurvesPositiveSurpluses | funct.py:266-274 | with a downward demand line and an upward supply line, both surpluses in the plot data are finite and positive |
| Text.StripStart | main.py:75 | the result is a suffix of the input with no leading whitespace, and everything removed is whitespace |
| Text.StripEnd | main.py:75 | the result is a prefix of the input with no trailing whitespace, and everything removed is whitespace |
| Text.Strip | main.py:75 | the result has whitespace at neither end |
| Text.StripIsInfix | main.py:75 | the stripped string occurs in the input with only whitespace before it and after it |
| Text.StripEmptyIffAllSpace | main.py:75 | a string strips to the empty string exactly when it is all whitespace |
| Text.StripIdempotent | main.py:75 | stripping twice is stripping once |
| Text.Split | main.py:75 | `str.split(",")`: always at least one piece; what the pieces are is stated by SplitFreeOfSeparator, JoinSplit and SplitJoin below |
| Text.SplitFreeOfSeparator | main.py:75 | no piece of `split(",")` contains a comma |
| Text.JoinSplit | main.py:75 | joining the pieces with commas gives back the original string |
| Text.SplitJoin | main.py:75 | splitting comma-free pieces after joining them gives back the pieces |
| DataManager.ValidateData | main.py:80-107 | valid exactly when both curves have equal price and quantity counts of at least 2; otherwise the message of the first failing check, in the order demand length, supply length, demand count, supply count |
| DataManager.ValidationMessageIdentifiesCheck | main.py:95-107 | each message occurs exactly when its own check is the first to fail, and "Data is valid" exactly when the data are valid |
| DataManager.NonEmptyStripped | main.py:75 | the comprehension's strip-and-drop-empty filter: never more fields than pieces; what it keeps and drops, in any mix of blank and non-blank pieces, is stated by NonEmptyStrippedAppend and NonEmptyStrippedOne below, with KeptFieldsTrimmed, NothingDroppedWithoutBlanks and BlanksDropped for the two uniform cases |
| DataManager.Fields | main.py:75 | the fields `parse_data_string` converts: the comma-separated pieces, stripped, without the empty ones; every field is non-empty with no whitespace at either end (from KeptFieldsTrimmed) |
| DataManager.NonEmptyStrippedAppend | main.py:75 | the comprehension filters each piece on its own: the fields of `a + b` are the fields of `a` followed by the fields of `b`, so order is kept |
| DataManager.NonEmptyStrippedOne | main.py:75 | a single piece is dropped exactly when it is all whitespace, and otherwise kept as its stripped text |
| DataManager.KeptFieldsTrimmed | main.py:75 | every field that is kept is non-empty and has no whitespace at either end |
| DataManager.NothingDroppedWithoutBlanks | main.py:75 | when no piece is all whitespace, the fields are exactly the stripped pieces in order |
| DataManager.BlanksDropped | main.py:75 | pieces that are all whitespace are all dropped |
| DataManager.ConvertAll | main.py:74-77 | gives a list exactly when every field converts, one value per field in order |
| DataManager.ParseDataString | main.py:64-77 | when every field converts, the result has one value per field in input order; if any field fails to convert, the result is the empty list |
| DataManager.ParseJoinedFields | main.py:75 | parsing clean fields written with commas gives back their values in order |
| DataManager.BlankTextParsesEmpty | main.py:75 | a text of whitespace only, the empty text included, parses to the empty list |
| Calculator.CalculateCurves | main.py:122-154 | demand is fitted first, then supply, each with quantities as the independent variable and the price count as the count; it succeeds exactly when both fits do; any failure carries the "Error calculating curves: " prefix and the failing fit's message; a success holds least-squares fits of price on quantity |
| Calculator.ValidatedFitFailsOnlyOnDenominator | main.py:142-149 | for data that passes validate_data, the curves fail exactly when a quantity list's denominator is within the tolerance, and then only with the zero-denominator message |
| Calculator.DemandCountMismatchCaught | main.py:142-145 | unequal non-empty demand price and quantity lists are refused by the fit's length check |
| Calculator.DemandPriceOnQuantity | main.py:142-145 | prices that are exactly a + b·quantity give back the demand line (a, b), so quantity is the independent variable |
| Calculator.CalculateEquilibriumAndSurpluses | main.py:157-207 | every failure carries the "Error calculating equilibrium: " prefix; a success lies on both lines at a positive point; its producer surplus is finite; the total is CS + PS, or `inf` when CS is |
| Calculator.ProducerSurplusFinite | main.py:190-196 | at a positive point of the supply line, the producer surplus computed with the raw supply intercept is finite |
| Calculator.ReportAgreesWithPlotData | main.py:175-196 | the report exists exactly when the plot data do, with the same equilibrium and surpluses; otherwise its message is the prefix plus the plot data's message |
| Calculator.ReportErrors | main.py:170-207 | parallel lines are refused as parallel; past the tolerance, any common point of the two lines decides the rest: a negative one is refused with the negative-values message, a non-negative one on an axis with the positive-values message, and a strictly positive one succeeds |
| Calculator.AsDict | main.py:198-204 | the dictionary has exactly the five keys, each holding its report field |
| Calculator.WorkedExample | main.py:157-204 | demand q = 15000 − 2500p and supply q = 2000 + 7500p give p = 1.3, q = 11750, CS = 27612.5, PS = 8937.5 and a total of 36550 |

## Left out

- Floating point: the model uses exact reals. IEEE rounding, NaN, signed
  zero and overflow are not modelled. Python's `sum()` order does not matter
  over the reals.
- `float("inf")` arithmetic is modelled only as far as the engine uses it.
  `inf` comes only from a price intercept. The `inf + -inf` case that would
  give NaN in the total cannot arise, because the two slopes would then both
  be zero and the lines parallel.
- Python's `float()` string grammar is not modelled. It is the parameter
  `toFloat`, whose `None` is the ValueError. Strings that `float()` turns into
  `inf` or `nan` are outside `Option<real>`.
- Regression.DenominatorZeroWhenConstant: only the direction from identical
  values to a zero denominator is proved. The converse holds over the reals
  (a zero sum of squares forces every deviation to be zero), but it is not
  proved here.
- Regression.CalculateSlope and Regression.CalculateIntercept: require
  `n != 0`. In Python a zero count would raise ZeroDivisionError. Their only
  caller reaches them after `calculate_sums` has checked that the count is at
  least 2.
- DataManager.ValidateData: the model receives numbers, so it only sees list
  lengths. That is all the source function inspects.
- The GUI (`MicroeconomyApp` and its widgets), plotting and chart-axis
  arithmetic (`plot_curves`, `_plot_curves`, `_plot_curves_on_axis`,
  `_create_plot`, `GraphManager`) and printing are out of scope. They are
  presentation over the computed values.
- CSV handling is out of scope: `load_example_data_from_csv` (a pandas read)
  and `ExportManager.export_results_to_csv` are file I/O wrappers.
- `analisis.py` is an interactive `input()` script with no logic of its own
  and is not part of this model.
- The constant getters (`get_calculation_methods`, `get_graph_types`,
  `get_supported_formats`) and the constructors that only set a flag are not
  modelled.
- Exceptions other than ValueError are not modelled. Python's re-raise with
  `from error` keeps the cause chain; the model keeps only the composed
  message.
