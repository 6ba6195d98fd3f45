/** The upload-progress sampling of `getStatus`: each call measures the
    throughput since the previous call and then records the current counter
    and time as the new sample. The job's state is the `DlVars` record the job
    creates at its start and updates in place. */
module Progress {

  /** The job's mutable state (the fields of `DlVars` the core uses). */
  class DlDetails {
    var isTar: bool
    var isDownloadAllowed: int
    var isDownloading: bool
    var isUploading: bool
    var uploadedBytes: int
    var uploadedBytesLast: int
    var startTime: int
    var lastUploadCheckTimestamp: int

    /** Lines 45-61: the state a tar job starts from. */
    constructor ()
      ensures isTar && isDownloadAllowed == 1 && isDownloading && isUploading
      ensures uploadedBytes == 0 && uploadedBytesLast == 0
      ensures startTime == 0 && lastUploadCheckTimestamp == 0
    {
      isTar := true;
      isDownloadAllowed := 1;
      isDownloading := true;
      isUploading := true;
      uploadedBytes := 0;
      uploadedBytesLast := 0;
      startTime := 0;
      lastUploadCheckTimestamp := 0;
    }

    /** Lines 206-221, with the clock reading `time` (milliseconds) passed in.
        Returns the arguments handed to the status formatter. */
    method GetStatus(totalSize: int, time: int) returns (report: StatusReport)
      requires lastUploadCheckTimestamp != 0 ==> time > lastUploadCheckTimestamp
      modifies this`uploadedBytesLast, this`lastUploadCheckTimestamp
      ensures report == StatusReport(totalSize, uploadedBytes,
                                     Speed(uploadedBytes, old(uploadedBytesLast), old(lastUploadCheckTimestamp), time))
      ensures uploadedBytesLast == uploadedBytes && lastUploadCheckTimestamp == time
    {
      var downloadSpeed: real;
      if lastUploadCheckTimestamp == 0 {
        downloadSpeed := 0.0;
      } else {
        downloadSpeed := (uploadedBytes - uploadedBytesLast) as real
                         / ((time - lastUploadCheckTimestamp) as real / 1000.0);
      }
      uploadedBytesLast := uploadedBytes;
      lastUploadCheckTimestamp := time;
      report := StatusReport(totalSize, uploadedBytes, downloadSpeed);
    }
  }

  /** What `generateStatusMessage2` is given: total size, bytes so far, speed. */
  datatype StatusReport = StatusReport(totalSize: int, uploadedBytes: int, speed: real)

  /** Bytes per second since the previous sample; 0 when there is none yet
      (a zero timestamp). Multiplied by the seconds elapsed it gives back the
      bytes uploaded in between. */
  function Speed(uploadedBytes: int, uploadedBytesLast: int, lastTimestamp: int, time: int): (speed: real)
    requires lastTimestamp != 0 ==> time > lastTimestamp
    ensures lastTimestamp == 0 ==> speed == 0.0
    ensures lastTimestamp != 0 ==>
              speed * ((time - lastTimestamp) as real / 1000.0) == (uploadedBytes - uploadedBytesLast) as real
    ensures uploadedBytes >= uploadedBytesLast ==> speed >= 0.0
  {
    if lastTimestamp == 0 then 0.0
    else
      var elapsed := (time - lastTimestamp) as real / 1000.0;
      var delta := (uploadedBytes - uploadedBytesLast) as real;
      assert elapsed > 0.0;
      var speed := delta / elapsed;
      assert speed * elapsed == delta;
      speed
  }

  /** One sample of the uploader's counter, taken at a clock reading. */
  datatype Sample = Sample(uploadedBytes: int, time: int)

  /** Samples are taken at strictly increasing, positive clock readings. */
  predicate Increasing(samples: seq<Sample>) {
    && (forall k :: 0 <= k < |samples| ==> samples[k].time > 0)
    && (forall k :: 0 < k < |samples| ==> samples[k - 1].time < samples[k].time)
  }

  /** The reporter of lines 97-101 over the whole upload: the first status
      update right after archiving, then one per interval tick, each seeing
      the counter the uploader has advanced to by then. */
  method ReportProgress(d: DlDetails, totalSize: int, samples: seq<Sample>) returns (reports: seq<StatusReport>)
    requires d.lastUploadCheckTimestamp == 0
    requires Increasing(samples)
    modifies d`uploadedBytes, d`uploadedBytesLast, d`lastUploadCheckTimestamp
    ensures |samples| == 0 ==> reports == [] && unchanged(d)
    ensures |reports| == |samples|
    ensures forall k :: 0 <= k < |samples| ==>
              reports[k].totalSize == totalSize && reports[k].uploadedBytes == samples[k].uploadedBytes
    ensures |samples| > 0 ==> reports[0].speed == 0.0
    ensures forall k :: 0 < k < |samples| ==>
              reports[k].speed
                == Speed(samples[k].uploadedBytes, samples[k - 1].uploadedBytes, samples[k - 1].time, samples[k].time)
    ensures |samples| > 0 ==>
              && d.uploadedBytes == samples[|samples| - 1].uploadedBytes
              && d.uploadedBytesLast == samples[|samples| - 1].uploadedBytes
              && d.lastUploadCheckTimestamp == samples[|samples| - 1].time
  {
    reports := [];
    for i := 0 to |samples|
      invariant |reports| == i
      invariant i == 0 ==> d.lastUploadCheckTimestamp == 0
      invariant i == 0 ==> unchanged(d)
      invariant i > 0 ==> d.uploadedBytes == samples[i - 1].uploadedBytes
                          && d.uploadedBytesLast == samples[i - 1].uploadedBytes
                          && d.lastUploadCheckTimestamp == samples[i - 1].time
      invariant forall k :: 0 <= k < i ==>
                  reports[k].totalSize == totalSize && reports[k].uploadedBytes == samples[k].uploadedBytes
      invariant i > 0 ==> reports[0].speed == 0.0
      invariant forall k :: 0 < k < i ==>
                  reports[k].speed
                    == Speed(samples[k].uploadedBytes, samples[k - 1].uploadedBytes, samples[k - 1].time, samples[k].time)
    {
      d.uploadedBytes := samples[i].uploadedBytes;
      var report := d.GetStatus(totalSize, samples[i].time);
      reports := reports + [report];
    }
  }

  /** With a counter that never goes down, no reported speed is negative. */
  lemma SpeedsNonNegative(samples: seq<Sample>, reports: seq<StatusReport>)
    requires Increasing(samples) && |reports| == |samples|
    requires forall k :: 0 < k < |samples| ==> samples[k - 1].uploadedBytes <= samples[k].uploadedBytes
    requires |samples| > 0 ==> reports[0].speed == 0.0
    requires forall k :: 0 < k < |samples| ==>
               reports[k].speed
                 == Speed(samples[k].uploadedBytes, samples[k - 1].uploadedBytes, samples[k - 1].time, samples[k].time)
    ensures forall k :: 0 <= k < |reports| ==> reports[k].speed >= 0.0
  {
    forall k | 0 < k < |reports|
      ensures reports[k].speed >= 0.0
    {
      assert reports[k].speed
          == Speed(samples[k].uploadedBytes, samples[k - 1].uploadedBytes, samples[k - 1].time, samples[k].time);
    }
  }
}
