/** The sample collection the label tools work on: samples with per-group classification
    fields and tags, and the per-group class registry (`dataset.classes`). */
module Samples {
  import opened Wrappers

  /** Image metadata as the importers probe it: `os.path.getsize` and `cv2.imread(...).shape`. */
  datatype Metadata = Metadata(sizeBytes: nat, width: nat, height: nat, numChannels: nat)

  /** A label field of a sample: unset (None) or a Classifications whose entries carry these
      labels, in entry order. */
  datatype Field = Null | Classifications(labels: seq<string>)

  datatype Date = Date(year: int, month: int, day: int)

  datatype Sample = Sample(
    filepath: string,
    metadata: Metadata,
    fields: map<string, Field>,
    tags: seq<string>,
    date: Option<Date>)

  /** `sample[group]`: a field the sample was never given reads as None. */
  function FieldOf(s: Sample, group: string): Field
  {
    if group in s.fields then s.fields[group] else Null
  }

  /** `sample[group] = f`. */
  function WithField(s: Sample, group: string, f: Field): (t: Sample)
    ensures FieldOf(t, group) == f
    ensures forall g :: g != group ==> FieldOf(t, g) == FieldOf(s, g)
    ensures t.filepath == s.filepath && t.metadata == s.metadata && t.tags == s.tags && t.date == s.date
  {
    s.(fields := s.fields[group := f])
  }

  /** Two samples that agree on everything but their label fields. */
  predicate SameSample(s: Sample, t: Sample)
  {
    s.filepath == t.filepath && s.metadata == t.metadata && s.tags == t.tags && s.date == t.date
  }

  /** The samples after a loop that edits and saves them one at a time, and the error that
      stopped it, if any: the samples saved before the error keep their edit. */
  datatype Outcome = Outcome(samples: seq<Sample>, failure: Option<Error>)
  {
    predicate Ok()
    {
      failure.None?
    }
  }

  /** The dataset: its samples in collection order and the class list of every label group. */
  class Dataset {
    var samples: seq<Sample>
    var classes: map<string, seq<string>>

    constructor (samples: seq<Sample>, classes: map<string, seq<string>>)
      ensures this.samples == samples && this.classes == classes
    {
      this.samples := samples;
      this.classes := classes;
    }
  }
}
