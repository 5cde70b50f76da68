# doublecheckem in Dafny

doublecheckem is a small web app for World Cube Association (WCA) competition
organisers. It downloads a competition's public WCIF document (WCA
Competition Information Format). It then lists, event by event, the
accepted competitors whose personal best is ranked highly enough that their
results should be double-checked:

- a single qualifies with a world ranking of at most 100, or a national ranking of at most 30;
- an average qualifies with a world ranking of at most 50, or a national ranking of at most 15;
- an average that misses both tests, but whose world ranking is 51 to 100, goes to a separate "borderline" list.

Results are displayed with a formatter that turns a WCA result value into
`M:SS.CC` or `S.CC`. Fewest-moves results are shown as move counts and
multi-blind results as the raw packed value.

This project models three things:

- the classifier `find_top_competitors`, which is imperative;
- the formatter `format_time`, which is pure;
- the contract of the download `get_wcif`.

Modules:

- `Wrappers`: `Option` and `Result`.
- `Decimal`: Python's `str(n)` and `:02d` for integers, plus a parser that reads them back.
- `Format`: `format_time` and its inverse on clock texts.
- `Wcif`: the part of a WCIF document the classifier reads. Every field the JSON may omit is an `Option`, and the accessors supply the source's defaults.
- `Classify`: the decision table `Judge` and the specification functions `TableOf` and `BorderlinesOf` for the two outputs. It also holds the three loops, as the methods `FindTopCompetitors`, `ScanPersons` and `ScanPersonalBests`, with the branch chain as `RankPersonalBest`. Each method is proved to compute exactly its specification function.
- `ClassifyProperties`: what the outputs mean, stated over the specification functions:
  - exactly which personal bests are listed;
  - what every entry says;
  - in what order entries appear;
  - that a repeated event name resets its list;
  - that each personal best yields at most one output.
- `Fetch`: the WCIF address, and what an HTTP reply turns into.

A ranking the record does not carry is `None`; the source defaults it to
`float('inf')`. `None` passes no `<=` test, exactly as infinity does. The
results dict is an `EventTable`, which holds the keys in insertion order and
a map from keys to lists. Assigning an existing key keeps its position,
which is how a Python dict behaves.

The documentation and the code disagree about the criteria. The app's help
text (main.py:148-150) states each criterion as a conjunction ("World
Ranking <= 100 and National Ranking <= 30"). The code accepts either test,
so a single ranked 150th in the world but 12th nationally is listed as
`National`/`NR`. The model follows the code, and
`ClassifyProperties.NationalSingleIsReachable` exhibits this case. The first
two branches of each chain (main.py:99-106 and main.py:112-119) assign the
same values. `RankPersonalBest` keeps both branches and is proved equal to
the decision table.

## Model

| member | source | states |
|---|---|---|
| Decimal.NatText | main.py:50-53 | the text of a natural number is a non-empty digit string with no leading zero |
| Decimal.Pad2 | main.py:51 | `:02d` of a value below 100 is exactly two digits that denote that value |
| Decimal.NatTextValue | main.py:50-53 | the digits of `str(n)` denote `n` |
| Decimal.IntText | main.py:41-43 | `str(i)` is non-empty and starts with `-` exactly when `i` is negative |
| Decimal.IntTextRoundTrip | main.py:41-43 | parsing `str(i)` gives back `i` |
| Decimal.IntTextInjective | main.py:41-43 | different integers have different texts |
| Format.Split | main.py:46-49 | minutes, seconds and hundredths recombine to the original count, with seconds below 60 and hundredths below 100 |
| Format.FormatTime | main.py:24-53 | for an ordinary event the result is `-` exactly when the value is missing or 0 |
| Format.ClockTextShape | main.py:50-53 | a clock text is at least four characters and has a dot three from the end |
| Format.MinutesFormValue | main.py:50-51 | `M:SS.CC` reads back as `M*6000 + SS*100 + CC` |
| Format.SecondsFormValue | main.py:52-53 | `S.CC` reads back as `S*100 + CC` |
| Format.ClockRoundTrip | main.py:46-53 | for a positive count of hundredths, the clock text reads back as that count |
| Format.FormatTimeInjective | main.py:44-53 | two different positive results of an ordinary event never display alike |
| Format.SpecialEvents | main.py:40-43 | fewest moves shows the value's text plus ` moves`, multi-blind the bare text; neither is ever `-`, and the value can be read back from both |
| Format.NegativeValues | main.py:44-53 | a negative value shows without a sign, as the clock text of its remainder modulo one minute (`0.00` when that is 0) |
| Format.SpecialAndMissingExamples | main.py:40-45 | 26 fewest moves shows `26 moves`, multi-blind 4 shows `4`, and 0 or a missing value shows `-` |
| Format.ClockExamples | main.py:46-53 | 7265 hundredths show as `1:12.65` and 950 as `9.50` |
| Wcif.WcaIdOf | main.py:84 | the WCA id is never empty; it is `[No WCA ID]` exactly when the id is missing, empty, or literally that text |
| Classify.Judge | main.py:92-125 | a sentinel record or an unranked kind gets no verdict; World holds exactly when the world ranking is within the kind's threshold; National holds exactly when the world test fails and the national one passes; borderline holds exactly for an average that fails both tests with world ranking 51 to 100; the recorded value is the ranking that decided |
| Classify.Assign | main.py:78 | `d[k] = v` adds `k` to the keys, gives it `v`, and leaves the earlier key order as a prefix |
| Classify.AssignWellFormed | main.py:73-78 | assignment keeps the keys distinct and in step with the contents, and no other key's list changes |
| Classify.AssignTwice | main.py:78 | assigning a key twice is the same as assigning the second value |
| Classify.PbStep | main.py:85-93 | one personal best appends its entries to the accumulated lists, and nothing when it is of another event or a sentinel record |
| Classify.PersonStep | main.py:79-82 | one person appends their entries, and nothing when not accepted |
| Classify.EventStep | main.py:75-78 | one event (re)sets its display name's list and appends its borderline entries |
| Classify.RankPersonalBest | main.py:94-125 | the branch chain, with its duplicated first branches, sets a qualifier exactly when the decision table qualifies, with that verdict's labels and ranking, and a borderline rank exactly when the table says borderline |
| Classify.RecordOutcome | main.py:124-144 | after the event and sentinel tests, the entries a personal best adds are those the specification gives |
| Classify.ScanPersonalBests | main.py:85-144 | the innermost loop appends exactly the specified entries of one person's personal bests, in order |
| Classify.ScanPersons | main.py:79-85 | the middle loop appends exactly the entries of the accepted persons for one event, in person order |
| Classify.FindTopCompetitors | main.py:73-145 | the results dict and the borderline list are exactly `TableOf` and `BorderlinesOf` of the document |
| ClassifyProperties.TableWellFormed | main.py:73-78 | the results dict has distinct keys, each with a list |
| ClassifyProperties.EveryEventHasAList | main.py:75-78 | every event's display name is a key (even with no competitors), and every key is some event's display name |
| ClassifyProperties.ListOfLastEventWithName | main.py:77-78 | a display name's list holds the entries of the last event with that name: a later event with the same name discards the earlier list |
| ClassifyProperties.KeysInDiscoveryOrder | main.py:73-78 | the keys after the first `n` events are a prefix of the final keys, so keys appear in the order their names were first met |
| ClassifyProperties.EventTopsFollowPersonOrder | main.py:79-85 | an event's list for persons `a + b` is its list for `a` followed by its list for `b` |
| ClassifyProperties.EventBordersFollowPersonOrder | main.py:79-85 | the same for an event's borderline entries |
| ClassifyProperties.PbTopsMembership | main.py:85-144 | an entry is produced from a person's personal bests exactly when one of them is for the event and qualifies, and the entry records it |
| ClassifyProperties.PbBordersMembership | main.py:85-133 | a borderline entry is produced exactly when one of the personal bests is for the event and borderline |
| ClassifyProperties.EventTopsMembership | main.py:79-144 | an entry is in an event's list exactly when some accepted person has a qualifying personal best for that event that the entry records |
| ClassifyProperties.EventBordersMembership | main.py:79-133 | a borderline entry belongs to an event exactly when some accepted person has a borderline personal best for it |
| ClassifyProperties.BorderlinesComeFromEvents | main.py:74-133 | every entry of the borderline list is a borderline entry of some event |
| ClassifyProperties.EventBordersInBorderlines | main.py:74-133 | every borderline entry of every event is in the borderline list |
| ClassifyProperties.EntriesAreQualified | main.py:92-144 | every listed entry names its event, has a nonzero best, is a single or an average labelled World/WR or National/NR, has a nonzero ranking within that label's threshold, and comes from an accepted person |
| ClassifyProperties.BorderlinesAreAveragesRanked51To100 | main.py:111-133 | every borderline entry names its event, has world ranking 51 to 100 and a nonzero best, and comes from an accepted person's average whose national ranking is not within 15 |
| ClassifyProperties.PbOutputBound | main.py:85-144 | a person's personal bests produce no more outputs than there are personal bests for the event |
| ClassifyProperties.AtMostOneOutputPerPersonalBest | main.py:79-144 | an event's two outputs together are no longer than the number of its personal bests held by accepted persons |
| ClassifyProperties.NationalSingleIsReachable | main.py:98-110 | a single ranked 150th or unranked in the world but 12th nationally qualifies as National |
| Fetch.WcifUrl | main.py:17 | the address is the API prefix, then the id, then `/wcif/public` |
| Fetch.UrlRoundTrip | main.py:17 | the competition id can be recovered from its address |
| Fetch.Receive | main.py:18-22 | a reply succeeds exactly on status 200 and yields its document; otherwise it fails, carrying the id, the status and the body |
| Fetch.Message | main.py:22 | the failure text starts with the fixed prefix and the id, and ends with the body |
| Fetch.MessageStatus | main.py:22 | the status code can be read back from the failure text |

## Left out

- The Streamlit user interface (main.py:147-188) is not modelled: the page text, the input box, the button, and the rendering of results. The rendering is string assembly around `format_time`, which is modelled.
- The HTTP request and the JSON decoding in `get_wcif` (main.py:18-20) are not modelled. `Fetch.Receive` takes the reply, with its decoded document, as a parameter.
- The three nested loops are three methods. The event's list and the borderline list are passed in and handed back rather than appended in place. Nothing else refers to those lists during the scan, so this changes no result.
- Dynamic typing is not modelled. A field holding JSON `null` is treated as a missing field. In the source, a `null` best is not equal to 0, so that record would pass the sentinel test; the model skips it. A `null` name or event name would be shown as `None`, and a `null` list of personal bests would raise an error. Rankings and results are integers here, so `int(...)` truncation of floats and `float('inf')` arithmetic are not modelled.
- A document without `events` or `persons` raises a `KeyError` in the source. `Wcif.Competition` always has both.
- Running `find_top_competitors` twice on the same document gives the same results. That holds trivially because the model is deterministic, so no lemma states it.
