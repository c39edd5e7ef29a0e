/** From the caller's writes to the reader's bytes: a run of the writer, the segments it lays out,
    and any positioned read of the opened image (src/writer.rs, src/image.rs). */
module ImageRoundTrip {
  import opened Basics
  import opened ChunkCodec
  import opened ChunkIndex
  import opened ChunkWriter
  import opened WrittenMedia
  import MediaReads
  import Ewf1 = Ewf1ReadBack
  import Ewf2 = Ewf2ReadBack
  import Ewf1Tables
  import Ewf2Sections
  import Ewf2Tables

  /** Any slice an image gives is a slice of one media that reflects the run's writes. */
  ghost predicate ReadsAsWritten(run: seq<Writer>, actions: seq<Action>, n: nat, logical: nat,
                                 image: MediaReads.Source, offset: nat, size: nat)
    requires n <= |actions| <= |run| && offset + size <= logical && image.chunkSize > 0
  {
    && MediaReads.Readable(image, offset, size)
    && exists media: Bytes ::
         && |media| == logical && Reflects(run, actions, n, media)
         && MediaReads.MediaSlice(image, offset, size) == media[offset..offset + size]
  }

  /** An EWF1 image gives back, at any offset, what any run of writes put there. */
  lemma Ewf1ImageReadsAsWritten(run: seq<Writer>, actions: seq<Action>, n: nat, segments: seq<Ewf1.Segment>,
                                logical: nat, encoded: seq<EncodedChunk>, profile: Ewf1Tables.Profile,
                                index: Index<(nat, Ewf1Tables.TableRange)>, padded: bool, offset: nat, size: nat)
    requires IsRun(run, actions) && IsNew(run[0]) && n <= |actions|
    requires run[n].options.bytesPerSector > 0 && LogicalSize(run[n]) == Ok(logical) && !run[n].options.IsEwf2()
    requires Emits(run[n], logical, encoded) && Ewf1.HoldsEmitted(segments, encoded)
    requires profile.mediaMethod.MethodZlib? && DoubleCap(run[n].chunkSize).Ok?
    requires forall id | 0 <= id < |encoded| :: Ewf1.FitsTwice(encoded[id], run[n].chunkSize, profile)
    requires forall id | 0 <= id < |encoded| ::
               Ewf1.TrailerIsSafe(encoded[id], |MediaChunk(run[n], logical, id)|)
    requires Ewf1.OpensAs(Ewf1.FilesOf(segments), logical, run[n].chunkSize, profile, index)
    requires offset + size <= logical
    ensures ReadsAsWritten(run, actions, n, logical, Ewf1.Opened(run[n], segments, index, logical, padded), offset,
                           size)
  {
    RunHas(run, actions, n);
    hide *;
    Ewf1.EmittedImageReadsBack(segments, run[n], logical, encoded, profile, index, padded, offset, size);
    MediaReflectsWrites(run, actions, n);
    SliceIsAsWritten(run, actions, n, logical, Ewf1.Opened(run[n], segments, index, logical, padded), offset, size);
  }

  /** So does an EWF2 image. */
  lemma Ewf2ImageReadsAsWritten(run: seq<Writer>, actions: seq<Action>, n: nat, segments: seq<Ewf2.Segment>,
                                logical: nat, encoded: seq<EncodedChunk>, rules: Ewf2Sections.Rules,
                                index: Index<(nat, Ewf2Tables.TableRange)>, offset: nat, size: nat)
    requires IsRun(run, actions) && IsNew(run[0]) && n <= |actions|
    requires run[n].options.bytesPerSector > 0 && LogicalSize(run[n]) == Ok(logical) && run[n].options.IsEwf2()
    requires Emits(run[n], logical, encoded) && Ewf2.HoldsEmitted(segments, encoded, run[n].options.Encode(), rules)
    requires Ewf2.OpensAs(Ewf2.FilesOf(segments), logical, run[n].chunkSize, rules, index)
    requires offset + size <= logical
    ensures ReadsAsWritten(run, actions, n, logical, Ewf2.Opened(run[n], segments, index, logical), offset, size)
  {
    RunHas(run, actions, n);
    hide *;
    Ewf2.EmittedImageReadsBack(segments, run[n], logical, encoded, rules, index, offset, size);
    MediaReflectsWrites(run, actions, n);
    SliceIsAsWritten(run, actions, n, logical, Ewf2.Opened(run[n], segments, index, logical), offset, size);
  }

  lemma SliceIsAsWritten(run: seq<Writer>, actions: seq<Action>, n: nat, logical: nat, image: MediaReads.Source,
                         offset: nat, size: nat)
    requires n <= |actions| <= |run| && n < |run| && offset + size <= logical && image.chunkSize > 0
    requires MediaReads.Readable(image, offset, size)
    requires var media := SpoolSlice(run[n].Spool(), 0, logical);
             && Reflects(run, actions, n, media)
             && MediaReads.MediaSlice(image, offset, size) == media[offset..offset + size]
    ensures ReadsAsWritten(run, actions, n, logical, image, offset, size)
  {
    hide Reflects, SpoolSlice, MediaReads.MediaSlice, MediaReads.Readable;
  }
}
