# Used-car price backend: dropdown catalog and request validation

This project models the deterministic core of a small Flask backend that serves a used-car
price estimator (`src/App.js`, which despite its name is Python). The backend has two endpoints:

- `GET /options` derives the dropdown catalog from the reference listings. One list holds the
  sorted distinct companies, and one list per company holds the sorted distinct model names
  seen with that company. The other two hold the sorted distinct years and fuel types.
  Any exception is answered with status 500.
- `POST /predict` checks that the JSON body is present and carries `company`, `name`, `year`,
  `fuel_type` and `kms_driven`. It coerces `year` and `kms_driven` with `int`. It then runs the
  trained encoder, scaler and regression model. Any exception on this path is answered with
  status 400.

Modules:

- `Wrappers`: `Option` and `Result`.
- `Ordering`: Python's string order (`StrLess`, lexicographic by code point) and integer order.
  Proves that both are strict total orders.
- `SortedSeqs`: `sorted(column.unique())` as `SortedUnique`. The result is a strictly increasing
  sequence with exactly the column's values. Also proves that an increasing sequence is
  determined by its elements.
- `DropdownCatalog`: the listing `Record`, the `Catalog`, one function per catalog field, and
  `BuildCatalog`.
- `Decimal`: `int(text)` as `ParseInt`, and `str(n)` as `IntToString`. Proves round trips in
  both directions.
- `Validation`: the typed `PredictionRequest`, the validation errors and `Validate`.
- `Api`: the two handlers as functions from the loaded state and the request to a status and
  a body.

The loaded state is a parameter of each handler. This covers the data frame and the trained
inference. No handler returns a new state, so no request can alter the catalog or the
artifacts. The model states this by its shape, not by a lemma.

Three behaviours of the code a reader might not expect:

- The code answers every `/predict` failure with 400. This includes failures inside the encoder
  or model that look like server errors.
- The missing-field error does not name the field. It is the single message
  "Missing one or more required fields".
- An unknown category is not checked by the handler. It is whatever the encoder does, and any
  exception it raises becomes a 400.

## Model

| member | source | states |
|---|---|---|
| `Ordering.StrLessIsStrictTotalOrder` | src/App.js:19 | the order `sorted` puts strings in is irreflexive, transitive and connected |
| `SortedSeqs.SortedUnique` | src/App.js:19 | `sorted(unique(xs))` is strictly increasing and holds a value exactly when it occurs in `xs` |
| `SortedSeqs.IncreasingUnique` | src/App.js:19-25 | two strictly increasing sequences with the same elements are equal |
| `SortedSeqs.SortedUniqueBySet` | src/App.js:19 | `sorted(unique(xs))` depends only on the set of values in `xs` |
| `DropdownCatalog.Column` | src/App.js:19-25 | selecting a column gives one value per row, the value of that row |
| `DropdownCatalog.RowsOf` | src/App.js:21 | the filtered rows are exactly the rows of the frame whose company is the given one, none more often than in the frame |
| `DropdownCatalog.Companies` | src/App.js:19 | companies are strictly ascending; a company is listed iff some row has it |
| `DropdownCatalog.ModelsOf` | src/App.js:21 | a company's models are strictly ascending; a name is listed iff some row has that company and that name |
| `DropdownCatalog.Years` | src/App.js:24 | years are strictly ascending integers; a year is listed iff some row has it |
| `DropdownCatalog.FuelTypes` | src/App.js:25 | fuel types are strictly ascending; a fuel type is listed iff some row has it |
| `DropdownCatalog.BuildCatalog` | src/App.js:19-31 | all four lists are sound, complete and strictly ascending; `models_by_company` has exactly the listed companies as keys, each restricted to its own rows |
| `DropdownCatalog.CatalogDependsOnRowSet` | src/App.js:19-25 | two frames with the same rows, in any order and with any repeats, give the identical catalog |
| `DropdownCatalog.CatalogPermutationInvariant` | src/App.js:19-25 | permuting the rows gives the identical catalog |
| `DropdownCatalog.TwoMarutiCatalog` | src/App.js:19-25 | a 2015 Maruti Swift and a 2018 Maruti Baleno on petrol give companies [Maruti], models {Maruti: [Baleno, Swift]}, years [2015, 2018], fuel types [Petrol] |
| `Decimal.ParseInt` | src/App.js:51-53 | `int(text)` succeeds exactly on an optionally signed, non-empty run of ASCII digits |
| `Decimal.ParseIntToString` | src/App.js:51-53 | writing an integer in decimal gives a canonical literal that `int` reads back as the same integer |
| `Decimal.ToStringParseInt` | src/App.js:51-53 | a canonical literal read by `int` and written back is the same text |
| `Decimal.ParseIntDigits` | src/App.js:51-53 | a plain run of digits is read as the value of those digits |
| `Decimal.ParseIntPlus` | src/App.js:51-53 | a leading `+` does not change the value `int` reads |
| `Decimal.ParseIntMinus` | src/App.js:51-53 | a leading `-` negates the value `int` reads, so `-0` reads as 0 |
| `Decimal.ParseIntLeadingZero` | src/App.js:51-53 | a leading zero does not change the value `int` reads |
| `Validation.Validate` | src/App.js:44-53 | fails with the missing-fields error iff the body is absent or lacks a required field (an empty body lacks them all); otherwise succeeds iff both `year` and `kms_driven` are decimal literals, reports `year` before `kms_driven`, and copies the three text fields and the two parsed integers into the request |
| `Validation.ErrorMessage` | src/App.js:46-53 | the missing-fields error carries the fixed sentence raised on line 46; a rejected integer's message quotes the rejected text |
| `Validation.ValidateToContent` | src/App.js:44-53 | every typed request, sent as a JSON body with its numbers in decimal, validates back to itself |
| `Api.FaultMessage` | src/App.js:33-69 | the `error` text of both handlers' failure responses (lines 35 and 69) is the validation message, or the message of the inference or data-reading exception unchanged |
| `Api.GetOptions` | src/App.js:17-35 | answers 500 exactly when reading the frame fails, and otherwise 200 with the catalog of its rows |
| `Api.PredictPrice` | src/App.js:38-69 | answers 200 or 400; 400 exactly when validation or inference fails; a validation failure carries its error; an inference failure after successful validation carries the inference's message; a 200 carries the price inference produced |
| `Api.InvalidRequestSkipsInference` | src/App.js:45-63 | a request that fails validation gets the same response whatever the trained model does |
| `Api.MissingKmsDriven` | src/App.js:44-69 | a body without `kms_driven` is answered 400 with the missing-fields error, whose text is "Missing one or more required fields" |

## Left out

- Loading the model, encoder, scaler and CSV with `pickle.load` and `pd.read_csv` (src/App.js:11-14) is file I/O. The data frame is a `Frame` parameter. A read failure is the `Failure` case, which stands for any exception raised while reading the columns.
- The one-hot encoder, standard scaler, `np.hstack`, the linear regression and `round(..., 2)` (src/App.js:55-65) are opaque trained objects and floating-point arithmetic. They are one `Inference` parameter that returns a price or an error message. The unknown-category behaviour is whatever that parameter does.
- Flask routing, CORS, `jsonify`, parsing `request.json`, the `print` logging and `app.run` are HTTP and I/O plumbing. A request body is an optional map from field names to text.
- Decimal.ParseInt: covers only an optional sign and ASCII digits. Python's `int` also accepts surrounding whitespace, `_` separators and non-ASCII digits. Applied to a JSON number, it also accepts floats (truncating them) and booleans.
- Request fields are modelled as text only. `int` of a JSON integer is that integer, which is what parsing its decimal text gives (`ParseIntToString`). JSON bodies that are lists or other non-object values are not modelled.
- Validation.ErrorMessage: writes the offending text between single quotes; Python uses `repr`, which escapes and may choose double quotes.
- A `year` column that pandas reads as floats or with missing values is out of scope. Records carry integer years, so `int(y)` on line 24 is the identity, and the years list cannot hold duplicates that `int` might create. A missing value in any column, and the errors `sorted` raises when comparing it, are covered only by the `Failure` case of a `Frame`.
- JSON key order in the response is out of scope. `models_by_company` is a map.
