# Parameters, components and the histogram segmenter of HyperSpy

This project models two parts of HyperSpy in Dafny and proves properties of the model:

- `Parameter` and `Component` of `hyperspy/component.py`. A parameter holds a value of a
  fixed number of elements. It can be twinned to another parameter, whose value it then
  reads through a twin function and writes through an inverse twin function. Writes go through
  a bounding policy (`ext_bounded`, `ext_force_positive`, `bmin`, `bmax`). A write that changes
  the stored value calls every observer of a list shared by all parameters. Each parameter
  also keeps a per-pixel map of values, deviations and `is_set` flags. A component owns an
  ordered list of parameters. It keeps the set and the element count of its free ones. It
  loads a flat vector into its parameters (`charge`), and stores and restores the parameters'
  values in their maps.
- `Histogram_segmenter` of `hyperspy/_samfire_utils/_segmenters/histogram.py`. `update` bins
  the values each parameter took over the map. `most_frequent` reports, for every histogram,
  the centre of each bin whose count is a strict local maximum.

Files, one module each:

- `wrappers.dfy` (`Wrappers`): `Option`, and the `Outcome` of an operation that can raise,
  with the errors the core raises.
- `lists.dfy` (`Lists`): `list.remove` and lists without repeats.
- `observers.dfy` (`Observers`): walking a Python list while removing from it.
- `policy.dfy` (`Policy`): the value policy of the `value` setter.
- `packing.dfy` (`Packing`): the flat parameter vector of `charge`.
- `pixel_map.dfy` (`PixelMaps`): the structured per-pixel array.
- `component.dfy` (`Components`): the `Registry` of shared state, and the classes `Parameter`
  and `Component`, whose methods update their fields in place.
- `histogram.dfy` (`Histograms`): the histogram database and its modes, with the segmenter
  as a class.

Where the source's own text promises something else, the model follows the code:

- The docstring of `ext_force_positive` (hyperspy/component.py:52-57) says every write stores
  the absolute value. The code takes the absolute value only when the parameter is bounded.
- The error message of the `_number_of_elements` setter (hyperspy/component.py:252-253) asks
  for a number "equal or greater to 1". The code refuses 1 as well as anything below it.
- The docstring of `twin` (hyperspy/component.py:40-43) says the twin function is the identity
  by default. The defaults are class attributes (hyperspy/component.py:82-83): read through an
  instance, Python binds them as methods, and calling one raises `TypeError`. So, unless a
  function was assigned to the instance, reading the value of a twinned parameter raises,
  writing it raises, and detaching it raises before anything is removed. The model's `TwinFn`
  has a `ClassDefault` case that behaves this way.

Other behaviour of the code that the model keeps:

- For several elements, the code drops the upper bound whenever `bmin` is missing.
- For one element, the code tests `bmin` before `bmax`. So with crossed bounds, a value above
  both is stored as `bmax`, and a second write moves it to `bmin`.
- A one-element parameter accepts a one-element sequence (how such a sequence is then bounded is
  not kept; see "## Left out").
- `charge(onlyfree=True)` walks a Python set, so no declaration order is promised.
- `charge` with too short a vector can raise a length error rather than an index error: a
  multi-element parameter at the end receives a cut-short slice, and the setter rejects it on
  length.
- The value reported for a maximum at index `i` of the padded counts is the centre of bin
  `i - 1` of the unpadded histogram. `ModesMeaning` states it that way.

## Model

| member | source | states |
|---|---|---|
| Components.OutcomeOf | hyperspy/component.py:126-144 | the setter raises exactly for a write refused, on length or at the call of a class-default inverse twin function, with that error; a write that is ignored at a twin without an inverse, or stored, returns normally |
| Components.ReplayConcat | hyperspy/component.py:476-484 | the writes of one loop run followed by those of the next are the writes of the whole loop |
| Components.ReplayQuiet | hyperspy/component.py:168 | writes that store what a parameter already holds leave every stored value as it was |
| Components.ReplayDistinct | hyperspy/component.py:476-484 | stores into distinct parameters leave each parameter with its own stored value, and every other parameter untouched |
| Components.NotifyConcat | hyperspy/component.py:165-173 | the observers called by a run of setter writes, and the list left, compose: those of `a + b` are those of `a` followed by those of `b` from where `a` left off |
| Components.Registry.constructor | hyperspy/component.py:81-85 | the shared lists `_twins` and `connected_functions` start empty |
| Components.Parameter.constructor | hyperspy/component.py:76-95 | a new parameter holds the value 0 with one element, has no bounds, twin, map, deviation or component, is free, keeps the class-default twin functions, and joins the shared registry without changing its lists |
| Components.Parameter.WriteTarget | hyperspy/component.py:125-163 | a write of the wrong length is refused; at an untwinned parameter it stores the argument through the policy; at a twinned one whose inverse is the class default it raises `TypeError`; any store lands in an untwinned parameter, with the right number of elements |
| Components.Parameter.ChargeHead | hyperspy/component.py:476-484 | one step of `charge` makes at most one write and one deviation assignment; it passes only with a write, fails with an index, a length or a type error, and at an untwinned parameter with enough entries it stores its piece of the vector |
| Components.Parameter.ChargeAt | hyperspy/component.py:476-484 | the loop body of `charge` returns the step's outcome, makes exactly the step's write, assigns the deviation only when the step does, and calls the observers (removing the failing ones) exactly when that write changes a stored value |
| Components.Parameter.Value | hyperspy/component.py:120-124 | an untwinned parameter reads its stored value; a twinned one raises when its twin function is the class default or its twin's value raises |
| Components.Parameter.Connect | hyperspy/component.py:108-112 | the shared list gets `f` appended unless it holds `f` already, and keeps no repeats |
| Components.Parameter.Disconnect | hyperspy/component.py:114-118 | the first occurrence of `f` is removed from the shared list, and `f` is no longer in it |
| Components.Parameter.NotifyConnected | hyperspy/component.py:168-173 | the observers called and the list left are those of the live walk `LiveSweep` over the shared list, removing the failing ones |
| Components.Parameter.SetValue | hyperspy/component.py:125-173 | the outcome and the new stored values are those of the write's target in the state before the call; the observers are called, and failing ones removed, exactly when the write changes a stored value |
| Components.Parameter.Free | hyperspy/component.py:177-181 | a twinned parameter is never free; an untwinned one reports its flag |
| Components.Parameter.SetFree | hyperspy/component.py:182-185 | the flag is stored, and the owning component's free set and free count agree with the flags again |
| Components.Parameter.SetTwin | hyperspy/component.py:188-208 | detaching a twinned parameter whose value cannot be read raises `TypeError` and changes nothing; otherwise it stores the value it read before, and if it was in `_twins`, it is removed from it and the observers at odd positions stay connected; attaching adds the parameter to `_twins` once and leaves the observers; on success the twin is the argument and the component's free set is recomputed |
| Components.Parameter.Detach | hyperspy/component.py:189-200 | the `None` branch of the twin setter: it raises `TypeError` and changes nothing exactly when the value read first raises; otherwise the twin's value is stored, `_twins` loses the parameter and the shared list keeps its odd positions, or nothing changes when the parameter was not listed or had no twin |
| Components.Parameter.Attach | hyperspy/component.py:201-205 | the parameter is appended to `_twins` unless present, and the shared observer list is unchanged |
| Components.Parameter.DetachObservers | hyperspy/component.py:194-197 | disconnecting every observer while walking the shrinking shared list leaves the observers at odd positions |
| Components.Parameter.SetBmin | hyperspy/component.py:219-225 | the lower bound is stored; then reading the value raises `TypeError` and nothing else changes, or the value read is written back through the setter, with its outcome, stores and notifications |
| Components.Parameter.SetBmax | hyperspy/component.py:233-239 | the same for the upper bound |
| Components.Parameter.SetExtBounded | hyperspy/component.py:266-271 | the same flag changes nothing; a new flag is stored, then the value read before is written back through the setter, or `TypeError` is raised when it cannot be read |
| Components.Parameter.SetExtForcePositive | hyperspy/component.py:277-282 | the same for the force-positive flag |
| Components.Parameter.WriteBackIsQuiet | hyperspy/component.py:266-271 | writing back a value the policy stored under the present settings changes nothing and calls no observer |
| Components.Parameter.WriteBack | hyperspy/component.py:225 | `self.value = self.value`: reading the value raises `TypeError` and changes nothing, or the value read goes through the setter under the present settings, with its outcome, stores and notifications |
| Components.Parameter.SetNumberOfElements | hyperspy/component.py:246-260 | the present number changes nothing; another number up to 1 raises and changes nothing; a larger one is stored with a zero value of that length |
| Components.Parameter.CreateArray | hyperspy/component.py:303-319 | a map of the same tuple shape and record width is kept; otherwise a fresh map of the normalised shape with empty records replaces it, and `std` is forgotten |
| Components.Parameter.StoreResult | hyperspy/component.py:284-288 | reading the value may raise `TypeError`, and then nothing changes; a bad index raises and changes nothing; otherwise only the indexed record changes: it gets the value and `is_set` when the value fits, then the deviation when one is known and fits; the outcome passes exactly when both fit |
| Components.Parameter.StoreCurrentValueInArray | hyperspy/component.py:284-288 | without a map it raises (`TypeError` first, when the value cannot be read); otherwise the outcome and the map are those `StoreResult` gives |
| Components.Parameter.AssignCurrentValueToAll | hyperspy/component.py:289-301 | without a map it raises; a value that cannot be read, a mask of the wrong size or a value that does not fit raises and changes nothing; otherwise every record whose mask entry is false gets the value and `is_set`, and the others are kept |
| Components.Parameter.Load | hyperspy/component.py:508-511 | without a map, or for an index out of range, it raises; a set record of the wrong width raises; a set record of the right width is returned, an unset one is not |
| Components.Parameter.LoadCell | hyperspy/component.py:508-511 | a set record's values go through the policy into the value and its deviation into `std`; no other parameter's value changes |
| Components.SizeOfRemove | hyperspy/component.py:459-462 | the element count of a set does not depend on the order the set is walked in |
| Components.FreeSizeOfSet | hyperspy/component.py:453-468 | the count summed over the free set equals the count over the free parameters of the list, and never exceeds the count of all parameters |
| Components.Piece | hyperspy/component.py:477-479 | a parameter gets the entries from its offset on, as many as it has elements, and fewer only at the end of the vector |
| Components.ChargePlan | hyperspy/component.py:470-484 | `charge` makes one write per parameter it reaches and assigns a deviation only after a write; it passes only after a write for every parameter |
| Components.ChargePlanPasses | hyperspy/component.py:470-484 | over untwinned parameters, `charge` passes when enough entries are left |
| Components.ChargePlanUnpacked | hyperspy/component.py:470-484 | over untwinned parameters, `charge` writes into each parameter its own piece of the vector, cut at the running offsets |
| Components.ChargePlanShort | hyperspy/component.py:470-484 | over untwinned parameters, `charge` raises when the vector is shorter than their elements |
| Components.ChargeSucceedsIff | hyperspy/component.py:470-484 | over untwinned parameters and without deviations, `charge` passes exactly when the vector has at least as many entries as the parameters have elements |
| Components.ChargeDistributes | hyperspy/component.py:470-484 | over distinct untwinned parameters, after `charge` each holds its piece of the vector through the policy, and every other parameter keeps its value |
| Components.ChargeOwnValues | hyperspy/component.py:470-484 | charging parameters with their own values laid end to end passes and changes no stored value |
| Components.ChargeFrom | hyperspy/component.py:476-484 | the loop of `charge` returns the plan's outcome, makes the plan's writes in order, assigns the plan's deviations to the leading parameters and changes no setting; the observers called and the list left are those `Notify` gives for the plan's writes |
| Components.Component.constructor | hyperspy/component.py:391-403 | one fresh parameter per name, in order, each owned by the component; all of them are free, counted one element each; the component is active and has no observers |
| Components.Component.InitParameters | hyperspy/component.py:423-431 | the parameters are fresh, distinct and pristine, carry the names in order, belong to the component and join the registry |
| Components.Component.AddParameter | hyperspy/component.py:424-431 | one fresh pristine parameter with the given name and owner is appended |
| Components.Component.UpdateFreeParameters | hyperspy/component.py:453-462 | the free set is the set of parameters that read free, and the free count sums their elements |
| Components.Component.CollectFree | hyperspy/component.py:454-457 | the first loop collects exactly the parameters that read free |
| Components.Component.SumElements | hyperspy/component.py:459-462 | the second loop sums the elements over the set, in whatever order it yields them |
| Components.Component.UpdateNumberParameters | hyperspy/component.py:464-468 | `nparam` is the element count of all parameters, never below the free count |
| Components.Component.Charge | hyperspy/component.py:470-484 | the outcome, the stored values and the deviations are those of the plan of `charge` over the parameters walked; the observers called and the list left are those `Notify` gives for the plan's writes; parameters not walked keep their deviations |
| Components.Component.CreateArrays | hyperspy/component.py:486-488 | every parameter's map is kept or remade as `create_array` says, and no two parameters come to share a map |
| Components.Component.CreateArrayAt | hyperspy/component.py:487-488 | one iteration remakes or keeps one parameter's map and no other's |
| Components.Component.StoreCurrentParametersInMap | hyperspy/component.py:490-495 | the empty index becomes `(0,)`; every parameter before the first that raises stores as `StoreOutcome` said, that one raises as it said, and later maps are untouched |
| Components.Component.StoreAt | hyperspy/component.py:494-495 | one iteration writes the map of one parameter, which is no other parameter's map |
| Components.Component.ChargeValueFromMap | hyperspy/component.py:497-511 | twinned parameters are skipped; the loop stops at the first parameter whose record raises, with that error; every parameter before it holds what `Charged` gives, later ones and parameters not walked keep value and deviation |
| Components.Component.ChargeEach | hyperspy/component.py:506-511 | the loop of `charge_value_from_map`, with the same outcome and state as above |
| Components.Component.LoadAt | hyperspy/component.py:506-511 | one iteration passes at a twinned parameter, otherwise reports what the record gives, and changes only that parameter |
| Components.Component.Connect | hyperspy/component.py:405-407 | the component's list gets `f` appended unless it holds `f` already |
| Components.Component.Disconnect | hyperspy/component.py:408-410 | the first occurrence of `f` is removed from the component's list |
| Components.Component.SetActive | hyperspy/component.py:414-420 | the flag is stored, and the observers called and the list left are those of the live walk over the component's list |
| Lists.NoDupSnoc | hyperspy/component.py:108-110 | appending an element after a failed membership test keeps the list without repeats |
| Lists.RemoveFirst | hyperspy/component.py:114-118 | `list.remove` shortens a list holding `x` by one, leaves a list without `x` as it is, and on a list without repeats removes exactly `x` |
| Lists.RemoveFirstAt | hyperspy/component.py:116 | on a list without repeats, removing the element at position `i` deletes position `i` |
| Observers.LiveFromNothingDropped | hyperspy/component.py:168-173 | when no observer fails, each is called once, in order, and the list is unchanged |
| Observers.LiveFromRemaining | hyperspy/component.py:168-173 | after the walk, an observer is still connected exactly when it was not both called and failing, and the list keeps no repeats |
| Observers.LiveFromSkipsEarlier | hyperspy/component.py:168-173 | observers before the walk's position are neither called nor removed |
| Observers.SkipsSuccessorOfDropped | hyperspy/component.py:168-173 | the observer right after a failing one is not called by the walk, and stays connected |
| Observers.DropAllKeepsOdds | hyperspy/component.py:194-197 | a walk that disconnects every observer it visits visits and removes the even positions, and keeps the odd ones |
| Policy.Abs | hyperspy/component.py:149-150 | the absolute value is non-negative and is `x` or `-x` |
| Policy.ClipOne | hyperspy/component.py:159-163 | clipping stays at or above an ordered lower bound and at or below the upper bound, and keeps a value already within both |
| Policy.UnboundedStoresArgument | hyperspy/component.py:146-147 | an unbounded parameter stores its argument as given, whatever the force-positive flag |
| Policy.SingleBranches | hyperspy/component.py:149-157 | a bounded one-element value is stored by the three branches of the code: `bmin` when at or below it, else `bmax` when at or above it, else the value |
| Policy.BoundedStoresWithin | hyperspy/component.py:146-163 | a bounded parameter with ordered bounds stores a value within them (for several elements, given a lower bound) |
| Policy.UpperBoundNeedsLowerBound | hyperspy/component.py:158-163 | for several elements without a lower bound, the upper bound is not applied |
| Policy.UpperBoundIgnoredExample | hyperspy/component.py:158-163 | `[5, 1]` with upper bound 2 and no lower bound is stored as `[5, 1]` |
| Policy.ForcePositiveStoresNonNegative | hyperspy/component.py:149-163 | bounded with force-positive and non-negative bounds, nothing negative is stored |
| Policy.ConformingIsKept | hyperspy/component.py:146-163 | a value within the bounds, non-negative when force-positive is on, is stored unchanged |
| Policy.Idempotent | hyperspy/component.py:146-163 | storing a stored value again stores the same value, given ordered bounds for one element |
| Policy.SingleNotIdempotentWhenBoundsCross | hyperspy/component.py:151-155 | with `bmin` 5 above `bmax` 1, 7 is stored as 1 and 1 is then stored as 5 |
| Packing.OffsetStep | hyperspy/component.py:477-484 | the running offset advances by the element count just consumed and never passes the total |
| Packing.UnpackOffsets | hyperspy/component.py:476-484 | the `k`-th piece is the slice of the vector from the `k`-th running offset, as long as the `k`-th length |
| Packing.UnpackFrom | hyperspy/component.py:476-484 | cutting from offset `i`: the first piece starts at `i`, the rest are cut after it |
| Packing.Slice | hyperspy/component.py:479 | numpy's slice is the exact slice when it fits, and is cut short at the end of the vector otherwise |
| Packing.FlattenUnpack | hyperspy/component.py:476-484 | cutting a vector of exactly the total length and laying the pieces end to end gives the vector back |
| Packing.UnpackFlatten | hyperspy/component.py:476-484 | laying values end to end and cutting by their lengths gives the values back |
| PixelMaps.EmptyCell | hyperspy/component.py:306-313 | a new record holds zero values and NaN deviations of the record width, and is not set |
| PixelMaps.NormalizeShape | hyperspy/component.py:304-305 | the shape `(0,)` becomes `[1]`; any other shape is kept |
| PixelMaps.NormalizeIndex | hyperspy/component.py:491-493 | the empty index of a single spectrum becomes `(0,)`; any other index is kept |
| PixelMaps.Wrap | hyperspy/component.py:285 | a negative index counts from the end of its axis |
| PixelMaps.Flat | hyperspy/component.py:285 | an index in range addresses one of the map's records |
| PixelMaps.FlatInjective | hyperspy/component.py:284-288 | two indices address the same record only when they name the same position on every axis |
| PixelMaps.Fit | hyperspy/component.py:285-288 | a value or a deviation fits a record when it has the record width, or one element that is broadcast |
| Histograms.Padded | hyperspy/_samfire_utils/_segmenters/histogram.py:40-43 | the counts come after a zero sentinel |
| Histograms.RelMaxFromRange | hyperspy/_samfire_utils/_segmenters/histogram.py:40-45 | the reported positions are in range, in strictly ascending order |
| Histograms.Centres | hyperspy/_samfire_utils/_segmenters/histogram.py:46-48 | one value per reported position |
| Histograms.PaddedRelMax | hyperspy/_samfire_utils/_segmenters/histogram.py:40-45 | behind the sentinel, position `j + 1` is a maximum of the circular comparison exactly when bin `j` is above both neighbours (0 beyond the ends); the sentinel never is |
| Histograms.RelMaxIsShiftedPeaks | hyperspy/_samfire_utils/_segmenters/histogram.py:40-45 | the maxima behind the sentinel are the peak bins, each shifted by one |
| Histograms.CentresOfShifted | hyperspy/_samfire_utils/_segmenters/histogram.py:46-48 | the midpoint of edges `m - 1` and `m` for a shifted position `m` is the centre of bin `m - 1` |
| Histograms.PeaksFromMeaning | hyperspy/_samfire_utils/_segmenters/histogram.py:40-45 | the peak list holds exactly the bins that are peaks, in strictly ascending order |
| Histograms.ModesMeaning | hyperspy/_samfire_utils/_segmenters/histogram.py:34-51 | one value is reported per peak bin, in ascending bin order, and each is its bin's centre; a bin is reported exactly when its count is strictly above both neighbours |
| Histograms.NoAdjacentPeaks | hyperspy/_samfire_utils/_segmenters/histogram.py:40-45 | two neighbouring bins are never both reported |
| Histograms.FlatHasNoModes | hyperspy/_samfire_utils/_segmenters/histogram.py:40-48 | equal counts over two bins or more report nothing |
| Histograms.NoPeakBins | hyperspy/_samfire_utils/_segmenters/histogram.py:40-45 | without a peak bin from `j` on, none is reported from `j` on |
| Histograms.CentreInBin | hyperspy/_samfire_utils/_segmenters/histogram.py:46-48 | over ascending edges, a reported value lies inside its bin |
| Histograms.Frequent | hyperspy/_samfire_utils/_segmenters/histogram.py:34-51 | one entry per component and per parameter of the database, holding the modes of its histogram |
| Histograms.HistogramSegmenter.constructor | hyperspy/_samfire_utils/_segmenters/histogram.py:29-32 | no database, and the bin setting given |
| Histograms.HistogramSegmenter.BinsFor | hyperspy/_samfire_utils/_segmenters/histogram.py:64-67 | an ensemble of at most four values gets 10 bins; a larger one gets the configured setting |
| Histograms.HistogramSegmenter.BinnedComponent | hyperspy/_samfire_utils/_segmenters/histogram.py:62-67 | one histogram per parameter of the component |
| Histograms.HistogramSegmenter.Binned | hyperspy/_samfire_utils/_segmenters/histogram.py:58-68 | one entry per component, each with one histogram per parameter |
| Histograms.HistogramSegmenter.MostFrequent | hyperspy/_samfire_utils/_segmenters/histogram.py:34-51 | without a database there is no result; with one, every component and parameter gets the modes of its histogram |
| Histograms.HistogramSegmenter.BinComponent | hyperspy/_samfire_utils/_segmenters/histogram.py:62-67 | the inner loop of `update` bins every parameter of one component with the setting its ensemble size calls for |
| Histograms.HistogramSegmenter.Update | hyperspy/_samfire_utils/_segmenters/histogram.py:58-68 | the database becomes the histograms of the values given, and nothing of the previous database survives |

## Left out

- Observers are identities (`nat`). Calling one is not modelled. The observers whose call
  raises are given as the set `failing`.
- Python's set iteration order is not modelled. Where the code walks a set, the caller supplies
  the order as a list that enumerates the set: the `order` of `Charge` and of
  `ChargeValueFromMap`. `SumElements` takes any element.
- Floating point is modelled as `real`; a NaN deviation is `None`. `np.inf` as a bound is
  modelled as a missing bound.
- A scalar and a one-element tuple are the same one-element sequence. The conversion of the
  stored value to a tuple is therefore not modelled. One consequence: when a one-element
  parameter holds the scalar `1.0` and `(1.0,)` is written, the source finds the values
  different (hyperspy/component.py:168) and calls the observers. The model sees no change and
  calls none. A second consequence changes what is stored. The setter turns a sequence into a
  tuple (hyperspy/component.py:132-133), and for one element it compares that tuple with the
  numeric bounds (hyperspy/component.py:151-155). Python 2, which the source is written for,
  orders every number below every tuple. So a bounded one-element parameter with force-positive
  off stores `bmax` for any written `(x,)` when `bmax` is set, and keeps `(x,)` unchanged when
  only `bmin` is set. The model clips `x` as it clips a scalar (`Policy.SingleBranches`). With
  force-positive on, `np.abs` makes the tuple an array, which compares element by element, so
  there the model's clipping matches.
- Policy.Constrain: a one-element argument is bounded as a scalar, also when it was written as a
  sequence, which the source compares as a tuple (see the line above).
- The map is one flat array in row-major order. Indexing it with fewer indices than axes (a
  slice of records) is refused as an index error.
- The element type of the map (`float`, `bool`) is dropped: `create_array` compares shape and
  record width only.
- `__repr__`, `__len__`, `as_signal`, `plot`, `export`, `grad`, `units`, `isbackground`,
  `convolved`, `_id_name`, `_position`, `setattr` of each parameter on the component and the
  `grad_` lookup in `init_parameters` are not modelled: they are display, I/O or reflection.
- `np.histogram` and the astroML `histogram` are one function parameter, the `Binner`. It is
  called with `Count(10)` for a small ensemble and with the configured setting otherwise.
  The bin-width rules are not modelled.
- Counts are `nat`, so the zero sentinel of `most_frequent` is never itself a maximum. A
  negative count cannot arise from a histogram.
- `Histograms.HistogramSegmenter.Update` assigns an empty database first and the database it
  built last, as the source does. The source fills its dictionary in place after the first
  assignment; the model builds a local map instead. No exception can tell the two apart, since
  the binner is total.
- `_min_points` is the constant 4 of the constructor; nothing in the source changes it.
- `Histograms.HistogramSegmenter.MostFrequent` returns `None` where the source raises on a
  missing database.
- Components.Component.ChargeValueFromMap: does not state which observers the value writes
  call, because its loop does not carry a plan of its writes the way `charge` does. It states
  only that the shared registry stays valid.
- Components.Component.ChargeEach: does not state which observers are called, for the same
  reason.
- Components.Component.LoadAt: does not state which observers are called, for the same reason.
- Components.Parameter.LoadCell: does not state which observers are called, for the same
  reason.
- Components.Parameter.SetTwin: the argument must keep the twin graph free of cycles, as a
  ghost rank witnesses. The source assumes this without checking, and a cycle makes its value
  getter recurse forever.
- Components.Component.Charge: over twinned parameters, the outcome and the writes are given
  by the plan `ChargePlan`. Its closed forms (`ChargeSucceedsIff`, `ChargeDistributes`) are
  proved for untwinned parameters only.
