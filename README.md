# Entity-linking gateway: failover and model-promotion core

The gateway in `Docker/server.py` fronts a pool of entity-linking worker
containers. This project models three parts of it in Dafny and proves
properties of each part:

- **Dispatch** (`dispatch.dfy`) covers the `/model` endpoint. It takes the next
  worker from the pool's rotation and forwards the request. A worker that cannot
  be connected to gets a replacement request, and the loop moves on to the next
  worker. Any other error propagates. When the rotation runs out, the endpoint
  answers HTTP 500 "No active workers". The rotation is a finite sequence of
  hosts. `outcomes[i]` is what the transport does with the request sent to the
  `i`-th host.
- **Tally** (`tally.dfy`) holds the `/test` counting loops. For each sample,
  the worker's candidate lists are zipped with the gold ids, and
  `num_correct`, `num_found` and `num_relevant` are counted over the pairs.
  The method `TallyRun` keeps the nested loops. It is proved equal to the
  recursive specification `TallyOf`, and the listed properties are lemmas
  about that specification.
- **Scoring** (`scoring.dfy`) computes precision and recall. The ratios are
  exact `real` quotients. A zero denominator gives an explicit error.
  Python's `round(_, 3)` is a function parameter the model does not interpret.
- **Promotion** (`promotion.dfy`) models the metrics history. The history is
  a class over a `seq<Record>`. The promotion decision compares the run's
  scores with the maxima over both precision columns and both recall columns,
  and appends at most one row.
- **Evaluation** (`evaluation.dfy`) composes tally, scoring and promotion into
  the body of the `/test` endpoint.

Where this model departs from the code as written:

- Lines 113-119 run when the history file does not exist, and they read
  `max_precision`/`max_recall` before either is assigned. The model uses
  baselines of 0 there. Like the code, it writes that first row whatever the
  scores are. It does not require the run to beat the baselines.
- Lines 99-100 divide without a guard. The model returns `NothingFound` when
  `num_found` is 0 and `NothingRelevant` when `num_relevant` is 0. The
  precision division comes first, so `NothingFound` wins when both are 0.
  A failed run writes no history row.
- Line 122 returns the undefined names `precision`/`recall`. The model returns
  the run's current (rounded) scores.
- Line 102 uses `Path`, which the file never imports. The model reads that
  test as "the history is non-empty".
- Line 93 takes `entity_ids[0]`. An empty candidate list at a zipped position
  raises `IndexError`, and that ends the request. The model returns
  `MalformedResponse` in that case.

Correct pairs are not always relevant. A pair whose gold id is `"0"` and whose
top candidate is also `"0"` is counted correct but not relevant. Recall can
therefore exceed 1 if a worker ever answers `"0"`.
`Tally.CorrectAtMostRelevant` proves `num_correct <= num_relevant` under the
condition that no top candidate is `"0"`.

## Model

| member | source | states |
|---|---|---|
| `Dispatch.LeadingConnErrors` | Docker/server.py:42-54 | the number of attempts that fail to connect before the first attempt that does not; every attempt before that index is a connection error and the one at it is not |
| `Dispatch.Dispatch` | Docker/server.py:40-54 | the hosts replaced are exactly the leading hosts whose connection failed, each once and in rotation order; the first other outcome decides the reply (a success is returned, another error is raised); the reply is 500 "No active workers" exactly when every host in the rotation failed to connect, an empty pool included |
| `Dispatch.FirstReachableAnswers` | Docker/server.py:42-54 | if no host raises anything but a connection error and some host answers, the first answering host's response is returned and only the hosts before it are replaced |
| `Tally.ZipAt` | Docker/server.py:92 | zipping pairs the j-th candidate list with the j-th gold id, for every j below the shorter length |
| `Tally.CountCorrect` | Docker/server.py:93-94 | num_correct is at most the number of visited pairs |
| `Tally.CountFound` | Docker/server.py:95-96 | num_found is at most the number of visited pairs |
| `Tally.CountRelevant` | Docker/server.py:97-98 | num_relevant is at most the number of visited pairs |
| `Tally.Zip` | Docker/server.py:92 | the zipped sequence is as long as the shorter of the candidate lists and the gold ids |
| `Tally.TallyRun` | Docker/server.py:72-98 | the nested counting loops (the outer one here, the inner one in `TallySample`) give exactly the counters of the specification, or MalformedResponse when a zipped candidate list is empty |
| `Tally.TallySample` | Docker/server.py:92-98 | continuing the counters of the pairs visited so far over one sample's zipped pairs gives the counters of the extended pair sequence, or MalformedResponse when one of its candidate lists is empty |
| `Tally.CountsStep` | Docker/server.py:93-98 | visiting one more pair adds one to a counter exactly when that counter's condition holds for the pair |
| `Tally.HasEmptyCandidatesIff` | Docker/server.py:93 | a response is malformed exactly when some visited pair has an empty candidate list |
| `Tally.TallyFailsIff` | Docker/server.py:92-93 | the tally fails exactly when some zipped candidate list is empty; candidate lists beyond the gold ids are never looked at |
| `Tally.CorrectAtMostFound` | Docker/server.py:93-96 | every pair counted in num_correct is counted in num_found, so num_correct <= num_found |
| `Tally.CorrectAtMostRelevant` | Docker/server.py:93-98 | num_correct <= num_relevant whenever no linked top candidate is the gold sentinel "0" |
| `Tally.NothingFoundIff` | Docker/server.py:95-96 | num_found is 0 exactly when no visited pair has a linked top candidate |
| `Tally.NothingRelevantIff` | Docker/server.py:97-98 | num_relevant is 0 exactly when every visited gold id is "0" |
| `Tally.UnlinkedAddNothing` | Docker/server.py:93-96 | pairs whose top candidate is "not in wiki" add nothing to num_correct or num_found |
| `Tally.UnlabelledAddNothing` | Docker/server.py:97-98 | pairs whose gold id is "0" add nothing to num_relevant |
| `Tally.AllPairsLength` | Docker/server.py:76-92 | the loops visit, per sample, the shorter of the candidate-list and gold-id lengths, summed over the samples |
| `Tally.TallyBounds` | Docker/server.py:92-98 | a successful tally has num_correct <= num_found, and num_found and num_relevant are each at most the number of zipped pairs |
| `Tally.ThreeMentionScenario` | Docker/server.py:92-98 | gold Q1, 0, Q3 against top candidates Q1, Q5, "not in wiki" counts 1 correct, 2 found, 2 relevant |
| `Scoring.Ratio` | Docker/server.py:99-100 | the quotient times the denominator is the numerator; it is non-negative, and at most 1 exactly when the numerator is at most the denominator |
| `Scoring.ScoresOf` | Docker/server.py:99-100 | scores exist exactly when both denominators are positive; a zero num_found is reported first, then a zero num_relevant; otherwise the scores are the rounded ratios |
| `Scoring.DegenerateIff` | Docker/server.py:93-100 | scoring fails for lack of found mentions exactly when none is linked, and for lack of relevant ones exactly when some are linked but every gold id is "0" |
| `Scoring.TallyPrecisionInUnitInterval` | Docker/server.py:92-99 | before rounding, the precision of a successful tally lies in [0, 1] |
| `Scoring.ThreeMentionScores` | Docker/server.py:99-100 | counts 1, 2, 2 give precision and recall round(0.5) |
| `Promotion.ColumnMax` | Docker/server.py:104-105 | a column's maximum is one of its values and bounds every value |
| `Promotion.MaxPrecision` | Docker/server.py:104 | max_precision bounds every value in both precision columns and is one of them |
| `Promotion.MaxRecall` | Docker/server.py:105 | max_recall bounds every value in both recall columns and is one of them |
| `Promotion.Decide` | Docker/server.py:102-119 | a row is appended exactly when there is no history, or the precision beats every recorded precision, or the recall beats every recorded recall; the row stores the maxima (0 without history) as old values, the run's scores as new values, and update_model = true |
| `Promotion.ChainedAppend` | Docker/server.py:106-120 | a history in which every row is what the decision appended stays so after the promotion step |
| `Promotion.BaselinesNonDecreasing` | Docker/server.py:104-112 | in such a history the old_precision and old_recall columns never decrease from row to row |
| `Promotion.ChainedRowsImprove` | Docker/server.py:104-112 | in such a history each row after the first stores the maxima of the rows before it and beats one of them |
| `Promotion.MaximaAfterPromotion` | Docker/server.py:104-112 | the promotion step never lowers the maxima: after an append they become the larger of the old maxima and the run's scores; otherwise the history is unchanged |
| `Promotion.MetricsStore.Promote` | Docker/server.py:102-120 | the history becomes the old rows plus at most the decided row at the end; existing rows are unchanged and the chained invariant holds |
| `Evaluation.Evaluate` | Docker/server.py:72-122 | the run answers with the tallied, rounded scores or the tally/scoring error; a failed run leaves the history unchanged, and a successful one appends what the decision says |

## Left out

- The HTTP layer is left out: FastAPI routing, CORS, uvicorn, request and response JSON, and the `aiohttp`/`requests` calls. The model takes worker outcomes and worker answers as input sequences.
- The `Porter` pool manager is not part of this model. Its rotation is a finite `seq` of hosts, and `update_container` is an append to the `replacements` list. Its rotation is cyclic in the source; the model uses one finite pass over it.
- The warning log and the `asyncio` fire-and-forget scheduling of replacements are left out (lines 52-54). The model records that the replacement was requested, not the log line or when it runs.
- The `/test` endpoint's own host loop and its `ClientConnectorError` handler are left out (lines 58-62, 124-127). The per-sample `requests.post` raises `requests` exceptions, so that handler never catches anything. The evaluation model starts after a host has been chosen.
- Test-data loading, the default dataset download, pandas CSV reading and writing, and `datetime.now()` are left out. The history is an in-memory `seq<Record>` without the `time` column.
- An existing history file with no rows is not modelled. In the model, an empty history means the file does not exist.
- Floating-point division and the behaviour of `round(x, 3)` are left out. Ratios are exact `real`s, and rounding is an uninterpreted parameter.
- The alias endpoints, the container update and manager endpoints, the worker-log, status and log HTML pages are left out. They pass through to classes this model does not include.
