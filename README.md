# Heart-disease prediction service: validator and prediction store

This project models the request validator and the prediction store of a
small prediction service, `app.py`. The service answers `POST /predict` with
a fitted classifier's verdict, saves each new prediction, lets a later
`POST /update` record the true outcome, and lists every saved row at `GET /list-db-contents`.

- **Validation** (`validation.dfy`) models the request validator at the top of
  `predict`. A request has an optional `observation_id` and an optional `data`
  mapping from column name to number. `Validate` runs the source's checks in
  its order: id present, data present, no missing columns, no extra columns,
  then `sex`, `ca`, `age`, `trestbps` and `oldpeak`. The first failing check
  decides the rejection. The same checks also appear as an ordered list,
  `Order`, with `FirstFailing` picking the first failing entry. Lemmas prove
  that the chain and the list agree.
- **Store** (`store.dfy`) models the `Prediction` table as the class
  `PredictionStore`. It holds a map from `observation_id` to the rest of the
  row, so the unique constraint shapes the state: at most one row per id. It
  also keeps the ids in insertion order, the rowid order an unordered scan
  yields in practice. `Insert` models `p.save()` of a new row, including the
  unique-constraint failure and rollback. `Update` models the `update`
  endpoint and `ListAll` models `list_db_contents`.
- **Service** (`service.dfy`) models the `predict` handler, which runs
  validation, then the model, then the store. The model's two outputs are the
  parameters `classify` and `score`. `PredictAsWritten` follows the code, where
  a duplicate id ends in an exception (see Findings). `Predict` is the
  corrected handler. A few client methods on fresh stores show what callers can
  rely on. These scenario methods start from an empty database, as on the
  first start; the contracts of `Insert`, `Update` and `ListAll` hold for any
  valid starting table, such as the rows a restarted service finds in
  `predictions.db`.

Three points where the code behaves differently than a reader might expect:

- The model takes `observation_id` as an integer, the type of its column
  (`IntegerField(unique=True)`). The code itself never checks the type. The
  response echoes the id as sent, and the column stores a numeric string
  like "42" as 42, so "42" and 42 collide.
- `true_class` can be updated any number of times and can be set back to null.
  Nothing in `update` guards against either.
- A duplicate `predict` does not return the prediction with an error attached.
  As written, it raises an exception (see Findings).

## Model

| member | source | states |
|---|---|---|
| `Validation.Validate` | app.py:87-152 | A missing id is rejected as `MissingId` with no id, and only then. Every rejection echoes the request's id. The request is accepted exactly when `Acceptable` holds: both keys present, key set equal to the nine required columns, `sex` in {0,1}, `ca` in {0,1,2,3}, `0 <= age < 150`, `50 <= trestbps < 300` and `oldpeak < 10` (no lower bound). An acceptance carries the request's id and data unchanged. A missing-columns rejection reports exactly `necessary - actual`, and that set is non-empty. An extra-columns rejection happens only once nothing is missing, and reports exactly `actual - necessary`, non-empty. |
| `Validation.NotSubsetLeavesDifference` | app.py:104-114 | A failed subset test always leaves a non-empty set difference to report. |
| `Validation.FirstFailing` | app.py:89-152 | Returns the index of a check in the list that fails, with every earlier check passing. Returns None exactly when no check in the list fails. |
| `Validation.ValidateIsFirstFailure` | app.py:89-152 | The validator rejects with the error of the first failing check in `Order` (id, data, missing, extra, sex, ca, age, trestbps, oldpeak), echoing the request's id. It accepts when no check fails. |
| `Validation.RejectedByFirstFailingCheck` | app.py:89-152 | A request is rejected by check `Order[i]` exactly when that check fails and every check before it passes. So the first failure decides the error, in the fixed order. |
| `Validation.AcceptedIffNoCheckFails` | app.py:89-152 | A request is accepted if and only if none of the nine checks fails. |
| `Store.PredictionStore.constructor` | app.py:25-35 | A new table is empty and valid: every key is listed once in insertion order. This is the first start; `create_tables` runs on the persistent `predictions.db`, so a restarted service keeps its rows. |
| `Store.PredictionStore.Insert` | app.py:162-174 | A fresh id adds exactly one row, with `true_class` null and the given observation and probability. The id is appended to the insertion order and no other row changes. A taken id gives `AlreadyExists`, and the table and order are left as they were, so there is still one row per id. |
| `Store.PredictionStore.Update` | app.py:211-221 | An unknown id gives `DoesNotExist` and creates nothing. A known id changes only that row's `true_class` and returns the whole updated row. The key set and order never change. |
| `Store.PredictionStore.ListAll` | app.py:224-228 | Returns one row per stored id and nothing else, each equal to the stored record, with no id twice, in insertion order. |
| `Service.Predict` | app.py:87-176 | A rejected request returns the rejection with the request's id, and the store is unchanged. An accepted request returns the model's label and probability. A fresh id saves one row with null `true_class`. A taken id attaches `AlreadyExists` and keeps the store unchanged. |
| `Service.PredictAsWritten` | app.py:87-176 | Same as `Predict`, except that a taken id ends in an escaped exception (`InternalError`) with the store unchanged. |
| `Service.DuplicateSubmissionAsWritten` | app.py:168-174 | For every accepted request submitted twice to the code as written, the first submission gets the prediction. The second ends in `InternalError`. The store holds exactly one row for the id. |
| `Service.DuplicateSubmission` | app.py:168-174 | For every accepted request submitted twice to the corrected handler, both submissions get the same prediction. The second also gets `AlreadyExists`. The store holds exactly one row for the id, with null `true_class`. |
| `Service.PredictUpdateList` | app.py:211-228 | After predicting id 1 for a valid observation, the listing holds exactly that row, with no true class. Setting the true class returns the updated row, and the next listing shows it. |
| `Service.UpdateUnknownId` | app.py:214-221 | Updating an id that was never predicted reports `DoesNotExist` and leaves the listing as it was. |

## Left out

- HTTP plumbing is not modelled: Flask routing, `request.get_json`, `jsonify` and `app.run`. Requests and responses are datatypes.
- Loading `columns.json`, `dtypes.pickle` and `pipeline.pickle` is not modelled. It is file I/O and unpickling.
- Building the one-row DataFrame and `astype(dtypes)` is not modelled. Whether that step can fail depends on `columns.json` and `dtypes.pickle`, which are not part of this model.
- Service.Predict and Service.PredictAsWritten assume that building the frame and both pipeline calls return. If one of them raises, `predict` ends in an unhandled exception, which the model does not represent: `classify` and `score` are total functions.
- `pipeline.predict` and `pipeline.predict_proba` are the opaque parameters `classify` and `score`. The model claims nothing about them: not that the probability lies in [0, 1], and not that the label agrees with a threshold on it.
- The error messages' text is not modelled, including the Python set reprs whose element order is unspecified. The model keeps the error kind, the reported sets and the offending value.
- Store.PredictionStore.Insert, Store.PredictionStore.Update, Service.Predict, Service.PredictAsWritten, Service.DuplicateSubmission and Service.DuplicateSubmissionAsWritten take ids and true classes as unbounded integers. Outside SQLite's signed 64-bit range, `predict` and `update` instead end in an unhandled `OverflowError` with the store unchanged; the model does not represent that exception.
- Field values other than finite numbers are not modelled: strings, booleans, null, NaN and infinities. The same goes for a `data` that is not a mapping, a body that is not an object, an `observation_id` that is present but null or not an integer, and a `true_class` in `update` that is neither an integer nor null (it is assigned and returned unchecked).
- In `update`, a missing `observation_id` or `true_class` key raises an unhandled `KeyError`. That is not modelled; `Update` takes both values.
- Storage-engine internals are not modelled: SQLite/peewee, `create_tables` and transaction mechanics. The implicit auto-increment `id` column that `model_to_dict` also returns is left out. So is the conversion of the stored observation to text.
- `Store.PredictionStore.ListAll`: the insertion order it promises is what a rowid-table scan without `ORDER BY` yields. SQL does not guarantee that order.
- The `print` in the duplicate handler is not modelled. Neither is the commented-out earlier version of `predict`, which is not live code.

## Findings

| source | as written | input that shows it | evidently intended | confidence | as-written member | corrected member |
|---|---|---|---|---|---|---|
| app.py:170-174 | The `IntegrityError` handler formats `_id`, which is not defined in `predict`. This raises `NameError`, so the error is never attached and `DB.rollback()` never runs. The request ends in an unhandled exception. | Two `predict` requests with the same valid `observation_id` (e.g. 1 with the example observation). | Return the prediction with an "already exists" error attached, as the commented-out handler at app.py:201-207 did, formatting the request's `observation_id`. | high; not executed | `Service.DuplicateSubmissionAsWritten` | `Service.DuplicateSubmission` |
