/**
 * The monitor itself (index.js): probe results are classified and pushed onto
 * a sample buffer; a digest drains the buffer, counts the classes, logs a
 * report row and sends it as an SMS when the success rate is above the
 * threshold.
 */
module Monitor {
  import opened Optional
  import Format
  import Heartbeat
  import Logger
  import Sms

  /** The success rate (in percent) an SMS alert must exceed. */
  const THRESHOLD: nat := 70

  /** `OFFLINE`, `AVAILABLE`, `UNAVAILABLE`. */
  datatype Status = Offline | Available | Unavailable

  /** A measurement as built by `indicator(status)`, its time supplied by the caller. */
  datatype Sample = Sample(status: Status, timestamp: int)

  /** How a probe is classified, given the heartbeat's offline flag and the request outcome. */
  function Classify(offline: bool, err: bool, statusCode: int): (status: Status)
    ensures offline ==> status == Offline
    ensures !offline ==> (status == Unavailable <==> err || statusCode != 200)
    ensures !offline ==> (status == Available <==> !err && statusCode == 200)
  {
    if offline then Offline
    else if err || statusCode != 200 then Unavailable
    else Available
  }

  /** The outcome of one probe request as the callback sees it. */
  datatype Outcome = Outcome(err: bool, statusCode: int, at: int)

  /** The samples pushed for a run of probes while the heartbeat's offline flag stays `offline`. */
  function Probes(offline: bool, outcomes: seq<Outcome>): (samples: seq<Sample>)
    ensures |samples| == |outcomes|
  {
    seq(|outcomes|, k requires 0 <= k < |outcomes| =>
      Sample(Classify(offline, outcomes[k].err, outcomes[k].statusCode), outcomes[k].at))
  }

  /** How many samples carry `status`. */
  function Count(samples: seq<Sample>, status: Status): (n: nat)
    ensures n <= |samples|
    decreases |samples|
  {
    if samples == [] then 0
    else Count(samples[..|samples| - 1], status) + (if samples[|samples| - 1].status == status then 1 else 0)
  }

  /** Every sample is in exactly one of the three classes. */
  lemma {:induction false} CountsPartition(samples: seq<Sample>)
    ensures Count(samples, Offline) + Count(samples, Available) + Count(samples, Unavailable) == |samples|
    decreases |samples|
  {
    if samples != [] {
      CountsPartition(samples[..|samples| - 1]);
    }
  }

  /**
   * While the heartbeat is online, a run of probes yields no OFFLINE sample;
   * while it is offline, every sample is OFFLINE whatever the request said.
   */
  lemma {:induction false} ProbesByLiveness(offline: bool, outcomes: seq<Outcome>)
    ensures !offline ==> Count(Probes(offline, outcomes), Offline) == 0
    ensures !offline ==> Count(Probes(offline, outcomes), Available) + Count(Probes(offline, outcomes), Unavailable) == |outcomes|
    ensures offline ==> Count(Probes(offline, outcomes), Offline) == |outcomes|
    decreases |outcomes|
  {
    if outcomes != [] {
      var earlier := outcomes[..|outcomes| - 1];
      ProbesByLiveness(offline, earlier);
      assert Probes(offline, outcomes)[..|outcomes| - 1] == Probes(offline, earlier);
    }
    CountsPartition(Probes(offline, outcomes));
  }

  /** The `forEach` over a drained batch: how many samples of each class it holds. */
  method Tally(cp: seq<Sample>) returns (offline: nat, success: nat, failures: nat)
    ensures offline == Count(cp, Offline) && success == Count(cp, Available) && failures == Count(cp, Unavailable)
    ensures offline + success + failures == |cp|
  {
    offline, success, failures := 0, 0, 0;
    var k := 0;
    while k < |cp|
      invariant 0 <= k <= |cp|
      invariant offline == Count(cp[..k], Offline)
      invariant success == Count(cp[..k], Available)
      invariant failures == Count(cp[..k], Unavailable)
      invariant offline + success + failures == k
    {
      assert cp[..k + 1][..k] == cp[..k];
      match cp[k].status {
        case Offline => offline := offline + 1;
        case Available => success := success + 1;
        case Unavailable => failures := failures + 1;
      }
      k := k + 1;
    }
    assert cp[..k] == cp;
  }

  /** What a digest computes from a drained batch. */
  datatype Report = Report(windowStart: int, windowEnd: int, samples: nat, offline: nat, failures: nat, success: nat)

  /** The report of a non-empty batch: its first and last timestamps and the class counts. */
  function Summarize(cp: seq<Sample>): (r: Report)
    requires cp != []
    ensures r.samples == |cp| && r.offline + r.failures + r.success == r.samples
    ensures r.windowStart == cp[0].timestamp && r.windowEnd == cp[|cp| - 1].timestamp
    ensures r.offline == Count(cp, Offline) && r.failures == Count(cp, Unavailable) && r.success == Count(cp, Available)
  {
    CountsPartition(cp);
    Report(cp[0].timestamp, cp[|cp| - 1].timestamp, |cp|,
           Count(cp, Offline), Count(cp, Unavailable), Count(cp, Available))
  }

  /** `(count / total) * 100`, in exact arithmetic. */
  function Rate(count: nat, total: nat): real
    requires total > 0
  {
    (count as real / total as real) * 100.0
  }

  /** A rate lies between 0 and 100, and is 100 exactly when the class holds every sample. */
  lemma RateBounds(count: nat, total: nat)
    requires total > 0
    ensures 0.0 <= Rate(count, total)
    ensures count <= total ==> Rate(count, total) <= 100.0
    ensures Rate(count, total) == 100.0 <==> count == total
  {
    var x, c, n := Rate(count, total), count as real, total as real;
    ScaledRate(count, total);
    assert x * n == c * 100.0;
    ComparePositive(0.0, x, n);
    assert 0.0 * n == 0.0;
    ComparePositive(x, 100.0, n);
    if count == total {
      CancelPositive(x, 100.0, n);
    }
    if x == 100.0 {
      assert c * 100.0 == n * 100.0;
    }
  }

  lemma CancelPositive(x: real, y: real, n: real)
    requires n > 0.0 && x * n == y * n
    ensures x == y
  {
    assert (x - y) * n == 0.0;
  }

  lemma ComparePositive(x: real, y: real, n: real)
    requires n > 0.0
    ensures x > y <==> x * n > y * n
  {
    assert x * n - y * n == (x - y) * n;
  }

  /** A rate times the number of samples is the count times 100. */
  lemma ScaledRate(count: nat, total: nat)
    requires total > 0
    ensures Rate(count, total) * total as real == count as real * 100.0
  {
    var c, n := count as real, total as real;
    assert (c / n) * n == c;
    calc {
      Rate(count, total) * n;
      ((c / n) * 100.0) * n;
      ((c / n) * n) * 100.0;
    }
  }

  /** The three rates of a report add up to 100 percent. */
  lemma RatesSumTo100(cp: seq<Sample>)
    requires cp != []
    ensures var r := Summarize(cp);
            Rate(r.offline, r.samples) + Rate(r.failures, r.samples) + Rate(r.success, r.samples) == 100.0
  {
    var r := Summarize(cp);
    var n := r.samples as real;
    var a, b, c := Rate(r.offline, r.samples), Rate(r.failures, r.samples), Rate(r.success, r.samples);
    ScaledRate(r.offline, r.samples);
    ScaledRate(r.failures, r.samples);
    ScaledRate(r.success, r.samples);
    assert r.offline as real + r.failures as real + r.success as real == n;
    calc {
      (a + b + c) * n;
      a * n + b * n + c * n;
      (r.offline as real + r.failures as real + r.success as real) * 100.0;
      100.0 * n;
    }
    CancelPositive(a + b + c, 100.0, n);
  }

  /** The alert test, in whole numbers: success rate strictly above the threshold. */
  predicate Alert(r: Report)
    ensures Alert(r) ==> r.success > 0
    ensures r.samples > 0 && r.success == r.samples ==> Alert(r)
  {
    r.success * 100 > THRESHOLD * r.samples
  }

  /** The whole-number alert test agrees with comparing the success rate to the threshold. */
  lemma AlertIffRateAboveThreshold(r: Report)
    requires r.samples > 0
    ensures Alert(r) <==> Rate(r.success, r.samples) > THRESHOLD as real
  {
    ScaledRate(r.success, r.samples);
    ScaledCompare(Rate(r.success, r.samples), THRESHOLD as real, r.samples as real,
                  r.success * 100, THRESHOLD * r.samples);
  }

  /** Comparing two reals scaled by the same positive factor is comparing the products. */
  lemma ScaledCompare(x: real, y: real, n: real, a: int, b: int)
    requires n > 0.0 && x * n == a as real && y * n == b as real
    ensures x > y <==> a > b
  {
    ComparePositive(x, y, n);
  }

  /** The batch available, available, unavailable, available: rates 0, 25 and 75 percent, and an alert. */
  lemma ThreeOfFourAvailable(t: int)
    ensures var r := Summarize([Sample(Available, t), Sample(Available, t + 1), Sample(Unavailable, t + 2), Sample(Available, t + 3)]);
            && Rate(r.offline, r.samples) == 0.0 && Rate(r.failures, r.samples) == 25.0
            && Rate(r.success, r.samples) == 75.0 && Alert(r)
            && Format.Fixed2(r.success, r.samples) == "75.00"
  {
    var cp := [Sample(Available, t), Sample(Available, t + 1), Sample(Unavailable, t + 2), Sample(Available, t + 3)];
    var c1, c2, c3 := cp[..1], cp[..2], cp[..3];
    assert c3[..2] == c2 && c2[..1] == c1 && c1[..0] == [];
    assert Count(c1, Available) == 1 && Count(c1, Unavailable) == 0 && Count(c1, Offline) == 0;
    assert Count(c2, Available) == 2 && Count(c2, Unavailable) == 0 && Count(c2, Offline) == 0;
    assert Count(c3, Available) == 2 && Count(c3, Unavailable) == 1 && Count(c3, Offline) == 0;
    assert Summarize(cp) == Report(t, t + 3, 4, 0, 1, 3);
    assert 0.0 / 4.0 == 0.0 && 1.0 / 4.0 == 0.25 && 3.0 / 4.0 == 0.75;
    assert Format.Hundredths(3, 4) == 7500;
  }

  /** The header row written when the monitor starts. */
  const HEADER: seq<string> :=
    ["TIMESTAMP", "URL", "SAMPLES", "OFFLINE RATE (%)", "FAILURE RATE (%)", "SUCCESS RATE (%)"]

  /** The fields of a report row: start time, url, sample count and the three rates to two decimals. */
  function ReportFields(url: string, r: Report): (fields: seq<string>)
    requires r.samples > 0
    ensures |fields| == |HEADER| && fields[1] == url
  {
    [Format.IntToString(r.windowStart), url, Format.NatToString(r.samples),
     Format.Fixed2(r.offline, r.samples), Format.Fixed2(r.failures, r.samples), Format.Fixed2(r.success, r.samples)]
  }

  /** A report row of a url without tabs splits back into its six fields. */
  lemma ReportRowSplits(url: string, r: Report)
    requires r.samples > 0 && '\t' !in url
    ensures Logger.Split(Logger.Join(ReportFields(url, r), Logger.DELIMITER), '\t') == ReportFields(url, r)
  {
    var fields := ReportFields(url, r);
    Logger.SplitJoin(fields, '\t');
  }

  /** The monitor started by `Main`: its heartbeat, logger, SMS sender and sample buffer. */
  class Monitor {
    const url: string
    const pulse: Heartbeat.Heartbeat
    const logger: Logger.Logger
    const sms: Sms.SMS
    /** `stats`: samples pushed since the last digest, oldest first. */
    var stats: seq<Sample>
    /** Every sample ever pushed, and every sample a digest has processed. */
    ghost var pushed: seq<Sample>
    ghost var drained: seq<Sample>

    ghost predicate Valid()
      reads this, pulse, pulse.counter, logger, sms
    {
      && pulse.Valid()
      && sms.Valid()
      && logger.delimiter == Logger.DELIMITER
      && pushed == drained + stats
    }

    /** `Main`: creates the collaborators and writes the header row. */
    constructor (url: string, to: string, from: string)
      ensures Valid() && this.url == url
      ensures stats == [] && pushed == [] && drained == []
      ensures pulse.State() == Heartbeat.Initial
      ensures logger.stream == [Logger.Join(HEADER, Logger.DELIMITER) + "\n"]
      ensures sms.maxMessages == 2 && sms.counter == 0 && sms.posts == [] && sms.to == to && sms.from == from
      ensures fresh(pulse) && fresh(pulse.counter) && fresh(logger) && fresh(sms)
    {
      this.url := url;
      pulse := new Heartbeat.Heartbeat();
      logger := new Logger.Logger(Logger.LoggerOptions(None, None, Some(true)));
      sms := new Sms.SMS(Sms.SmsOptions(Some(true), Some(2)), to, from);
      stats := [];
      pushed := [];
      drained := [];
      new;
      var header := logger.Log(HEADER);
    }

    /** The heartbeat timer: one heartbeat tick. */
    method Beat(err: bool)
      requires Valid()
      modifies pulse, pulse.counter
      ensures Valid()
      ensures pulse.State() == Heartbeat.Step(old(pulse.State()), err)
    {
      pulse.Tick(err);
    }

    /** The request callback: pushes exactly one classified sample taken at `now`. */
    method Callback(err: bool, statusCode: int, now: int)
      requires Valid()
      modifies this
      ensures Valid()
      ensures stats == old(stats) + [Sample(Classify(pulse.offline, err, statusCode), now)]
      ensures pushed == old(pushed) + [stats[|stats| - 1]] && drained == old(drained)
    {
      var sample: Sample;
      if pulse.offline {
        sample := Sample(Offline, now);
      } else {
        var errored := err || statusCode != 200;
        if errored {
          sample := Sample(Unavailable, now);
        } else {
          sample := Sample(Available, now);
        }
      }
      stats := stats + [sample];
      pushed := pushed + [sample];
    }

    /**
     * `digest`: an empty buffer is left alone; otherwise the whole buffer is
     * drained, its report row logged, and the row sent by SMS iff the success
     * rate is strictly above the threshold.
     */
    method Digest()
      requires Valid()
      modifies this, logger, sms
      ensures Valid() && stats == [] && pushed == old(pushed)
      ensures old(stats) == [] ==> drained == old(drained) && unchanged(logger) && unchanged(sms)
      ensures old(stats) != [] ==>
        var r := Summarize(old(stats));
        var row := Logger.Join(ReportFields(url, r), Logger.DELIMITER);
        && drained == old(drained) + old(stats)
        && logger.stream == old(logger.stream) + [row + "\n"]
        && sms.calls == old(sms.calls) + (if Alert(r) then [row] else [])
        && (!Alert(r) ==> unchanged(sms))
    {
      if |stats| == 0 {
        return;
      }
      var cp := stats;
      var offline, success, failures := Tally(cp);
      var report := Report(cp[0].timestamp, cp[|cp| - 1].timestamp, |cp|, offline, failures, success);
      assert report == Summarize(cp);
      stats := [];
      drained := drained + cp;
      Publish(report);
    }

    /** The end of `digest`: logs the report row, and sends it by SMS iff the success rate is above the threshold. */
    method Publish(r: Report)
      requires r.samples > 0 && sms.Valid() && logger.delimiter == Logger.DELIMITER
      modifies logger, sms
      ensures sms.Valid()
      ensures var row := Logger.Join(ReportFields(url, r), Logger.DELIMITER);
        && logger.stream == old(logger.stream) + [row + "\n"]
        && sms.calls == old(sms.calls) + (if Alert(r) then [row] else [])
        && (!Alert(r) ==> unchanged(sms))
    {
      var row := logger.Log(ReportFields(url, r));
      if Alert(r) {
        sms.Send(url, row);
      }
    }
  }

  /** Two digests with no callback between them: the second finds nothing, so no sample is processed twice. */
  method DigestTwice(m: Monitor)
    requires m.Valid()
    modifies m, m.logger, m.sms
    ensures m.Valid() && m.stats == [] && m.drained == old(m.drained) + old(m.stats)
  {
    m.Digest();
    ghost var afterFirst := m.drained;
    ghost var stream := m.logger.stream;
    m.Digest();
    assert m.drained == afterFirst && m.logger.stream == stream;
  }
}
