/** The device clock's BCD block, its weekday conventions, and the decision a clock sync takes. */
module DeviceClock {
  import opened Basics
  import opened CivilDate

  // --- packed BCD ----------------------------------------------------------------------

  function BcdToInt(b: u8): (r: Option<u8>)
    ensures r.Some? ==> r.value <= 99
  {
    var hi, lo := b / 16, b % 16;
    if hi > 9 || lo > 9 then None else Some(hi * 10 + lo)
  }

  function IntToBcd(dec: u8): (r: Option<u8>)
    ensures r.Some? <==> dec <= 99
  {
    if dec > 99 then None else Some((dec / 10) * 16 + dec % 10)
  }

  lemma BcdRoundTrip(dec: u8)
    requires dec <= 99
    ensures BcdToInt(IntToBcd(dec).value) == Some(dec)
  {
    var hi, lo := dec / 10, dec % 10;
    NibblesOf(hi, lo);
  }

  lemma NibblesOf(hi: nat, lo: nat)
    requires hi <= 9 && lo <= 9
    ensures (hi * 16 + lo) / 16 == hi && (hi * 16 + lo) % 16 == lo
  {}

  // --- the 8-byte date and time -----------------------------------------------------------

  /** The weekday byte (index 4) is not looked at here. */
  function DecodeDateTime(data: seq<u8>, offset: nat): Option<DateTime> {
    if |data| < offset + 8 then None
    else
      var century, yy, month, day := BcdToInt(data[offset]), BcdToInt(data[offset + 1]),
                                     BcdToInt(data[offset + 2]), BcdToInt(data[offset + 3]);
      var hour, minute, second := BcdToInt(data[offset + 5]), BcdToInt(data[offset + 6]), BcdToInt(data[offset + 7]);
      if century.None? || yy.None? || month.None? || day.None? || hour.None? || minute.None? || second.None? then None
      else if month.value < 1 || month.value > 12 || day.value < 1 || day.value > 31
              || hour.value > 23 || minute.value > 59 || second.value > 59 then None
      else if century.value * 100 + yy.value < 1990 then None
      else Some(DateTime(century.value * 100 + yy.value, month.value, day.value,
                         hour.value, minute.value, second.value))
  }

  function EncodeDateTime(t: DateTime, weekday: u8): (r: Option<seq<u8>>)
    ensures r.Some? ==> |r.value| == 8
  {
    if t.year > 9999 || t.month < 1 || t.month > 12 || t.day < 1 || t.day > 31 || weekday > 7
       || t.hour > 23 || t.minute > 59 || t.second > 59 then None
    else Some([IntToBcd(t.year / 100).value, IntToBcd(t.year % 100).value, IntToBcd(t.month).value,
               IntToBcd(t.day).value, IntToBcd(weekday).value, IntToBcd(t.hour).value,
               IntToBcd(t.minute).value, IntToBcd(t.second).value])
  }

  /** What is encoded decodes to the same time and the same weekday, from 1990 on. */
  lemma DateTimeRoundTrip(t: DateTime, weekday: u8)
    requires EncodeDateTime(t, weekday).Some?
    ensures var block := EncodeDateTime(t, weekday).value;
            && DecodeDateTime(block, 0) == (if t.year >= 1990 then Some(t) else None)
            && BcdToInt(block[4]) == Some(weekday)
  {
    BcdRoundTrip(t.year / 100);
    BcdRoundTrip(t.year % 100);
    BcdRoundTrip(t.month);
    BcdRoundTrip(t.day);
    BcdRoundTrip(weekday);
    BcdRoundTrip(t.hour);
    BcdRoundTrip(t.minute);
    BcdRoundTrip(t.second);
    assert t.year / 100 * 100 + t.year % 100 == t.year;
  }

  /** Each byte of a block holds two decimal digits, tens in the high nibble. */
  predicate Digits(b: u8, value: nat) {
    value <= 99 && b == value / 10 * 16 + value % 10
  }

  /** The eight bytes of a time, but for the weekday's. */
  predicate ShowsTime(data: seq<u8>, offset: nat, t: DateTime)
    requires |data| >= offset + 8
  {
    && Digits(data[offset], t.year / 100) && Digits(data[offset + 1], t.year % 100)
    && Digits(data[offset + 2], t.month) && Digits(data[offset + 3], t.day)
    && Digits(data[offset + 5], t.hour) && Digits(data[offset + 6], t.minute) && Digits(data[offset + 7], t.second)
  }

  predicate InRange(t: DateTime) {
    1990 <= t.year && 1 <= t.month <= 12 && 1 <= t.day <= 31 && t.hour <= 23 && t.minute <= 59 && t.second <= 59
  }

  /** A block is read as a time exactly when it is whole and its bytes are that time's digits, from 1990 on. */
  lemma DecodesExactly(data: seq<u8>, offset: nat, t: DateTime)
    ensures DecodeDateTime(data, offset) == Some(t) <==>
            |data| >= offset + 8 && InRange(t) && ShowsTime(data, offset, t)
  {
    if |data| >= offset + 8 {
      if ShowsTime(data, offset, t) {
        ShownDecodes(data, offset, t);
      } else if DecodeDateTime(data, offset) == Some(t) {
        DecodedShows(data, offset, t);
      }
    }
  }

  lemma ShownDecodes(data: seq<u8>, offset: nat, t: DateTime)
    requires |data| >= offset + 8 && ShowsTime(data, offset, t)
    ensures DecodeDateTime(data, offset) == Some(t) <==> InRange(t)
  {
    DigitsAre(data[offset], t.year / 100);
    DigitsAre(data[offset + 1], t.year % 100);
    DigitsAre(data[offset + 2], t.month);
    DigitsAre(data[offset + 3], t.day);
    DigitsAre(data[offset + 5], t.hour);
    DigitsAre(data[offset + 6], t.minute);
    DigitsAre(data[offset + 7], t.second);
  }

  lemma DecodedShows(data: seq<u8>, offset: nat, t: DateTime)
    requires |data| >= offset + 8 && DecodeDateTime(data, offset) == Some(t)
    ensures ShowsTime(data, offset, t)
  {
    var century, yy := BcdToInt(data[offset]).value, BcdToInt(data[offset + 1]).value;
    assert t.year / 100 == century && t.year % 100 == yy;
    DigitsAre(data[offset], century);
    DigitsAre(data[offset + 1], yy);
    DigitsAre(data[offset + 2], t.month);
    DigitsAre(data[offset + 3], t.day);
    DigitsAre(data[offset + 5], t.hour);
    DigitsAre(data[offset + 6], t.minute);
    DigitsAre(data[offset + 7], t.second);
  }

  lemma DigitsAre(b: u8, value: nat)
    ensures BcdToInt(b) == Some(value) <==> Digits(b, value)
  {
    if Digits(b, value) { NibblesOf(value / 10, value % 10); }
  }

  // --- weekday conventions ------------------------------------------------------------------

  datatype WeekdayBase = Sunday0 | Monday0 | Monday1 | Sunday0OrMonday1

  predicate Decided(base: WeekdayBase) {
    base != Sunday0OrMonday1
  }

  type Dow = d: int | 1 <= d <= 7 witness 1

  datatype Written = Written(weekday: u8, undecided: bool)

  /** The byte for a weekday counted sunday=1..saturday=7, and whether it is a guess. */
  function DeviceWeekday(dow: Dow, base: WeekdayBase): Written {
    var undecided := base == Sunday0OrMonday1 && dow == 1;
    if base == Monday1 then Written(if dow == 1 then 7 else dow - 1, undecided)
    else Written((dow + (if base == Monday0 then 5 else 6)) % 7, undecided)
  }

  /** The convention a block's weekday byte shows, judged against the block's own date. */
  function ClockWeekdayBase(data: seq<u8>, offset: nat): Option<WeekdayBase> {
    var t := DecodeDateTime(data, offset);
    if t.None? then None
    else
      var weekday := BcdToInt(data[offset + 4]);
      if weekday.None? then None
      else
        ShownBase(Weekday(t.value.year, t.value.month, t.value.day), weekday.value)
  }

  /** The convention a weekday byte shows on a day counted from Sunday = 0. */
  function ShownBase(fromSunday: nat, weekday: u8): Option<WeekdayBase>
    requires fromSunday <= 6
  {
    if weekday == fromSunday then Some(if fromSunday == 0 then Sunday0 else Sunday0OrMonday1)
    else if weekday == (fromSunday + 6) % 7 then Some(Monday0)
    else if fromSunday == 0 && weekday == 7 then Some(Monday1)
    else None
  }

  function ResolveBase(configured: Option<WeekdayBase>, read: Option<WeekdayBase>, learned: Option<WeekdayBase>)
    : WeekdayBase
  {
    if configured.Some? then configured.value
    else if read.Some? && Decided(read.value) then read.value
    else if learned.Some? then learned.value
    else Sunday0OrMonday1
  }

  /** What a sync remembers after a read. */
  function Learn(learned: Option<WeekdayBase>, read: Option<WeekdayBase>): Option<WeekdayBase> {
    if read.Some? && Decided(read.value) then read else learned
  }

  /** How each convention counts, said day by day. */
  function ConventionByte(convention: WeekdayBase, dow: Dow): u8
    requires Decided(convention)
  {
    match convention
    case Sunday0 => [0, 1, 2, 3, 4, 5, 6][dow - 1]
    case Monday0 => [6, 0, 1, 2, 3, 4, 5][dow - 1]
    case Monday1 => [7, 1, 2, 3, 4, 5, 6][dow - 1]
  }

  /** A block this clock could have answered: unreadable, or with the weekday of its own date. */
  predicate FromClock(convention: WeekdayBase, data: seq<u8>)
    requires Decided(convention)
  {
    var t := DecodeDateTime(data, 0);
    t.Some? ==>
      BcdToInt(data[4]) == Some(ConventionByte(convention, Weekday(t.value.year, t.value.month, t.value.day) + 1))
  }

  function LearnedFrom(history: seq<seq<u8>>): Option<WeekdayBase> {
    if history == [] then None
    else Learn(LearnedFrom(history[..|history| - 1]), ClockWeekdayBase(history[|history| - 1], 0))
  }

  /** Of the three conventions, the byte `weekday` is this one's on that day. */
  predicate Fits(convention: WeekdayBase, fromSunday: nat, weekday: u8)
    requires fromSunday <= 6
  {
    Decided(convention) && ConventionByte(convention, fromSunday + 1) == weekday
  }

  /** A byte shows the one convention it fits, leaves two open, and shows nothing where it fits none. */
  lemma ShownExactly(fromSunday: nat, weekday: u8, convention: WeekdayBase)
    requires fromSunday <= 6 && Decided(convention)
    ensures ShownBase(fromSunday, weekday).None? <==> forall c :: !Fits(c, fromSunday, weekday)
    ensures ShownBase(fromSunday, weekday) == Some(convention)
            <==> Fits(convention, fromSunday, weekday) && forall c :: Fits(c, fromSunday, weekday) ==> c == convention
  {
    assert forall c :: Fits(c, fromSunday, weekday) ==> c == Sunday0 || c == Monday0 || c == Monday1;
    assert Fits(Sunday0, fromSunday, weekday) <==> weekday == fromSunday;
    assert Fits(Monday0, fromSunday, weekday) <==> weekday == (fromSunday + 6) % 7;
    assert Fits(Monday1, fromSunday, weekday) <==> weekday == if fromSunday == 0 then 7 else fromSunday;
  }

  /** A read shows the clock's own convention, but that two of them agree on every day but Sunday. */
  lemma ReadShowsConvention(convention: WeekdayBase, data: seq<u8>)
    requires Decided(convention) && FromClock(convention, data)
    ensures var t, read := DecodeDateTime(data, 0), ClockWeekdayBase(data, 0);
            if t.None? then read.None?
            else
              var tells := convention == Monday0 || Weekday(t.value.year, t.value.month, t.value.day) == 0;
              read == Some(if tells then convention else Sunday0OrMonday1)
  {
    var t := DecodeDateTime(data, 0);
    if t.Some? {
      ByteShowsConvention(convention, Weekday(t.value.year, t.value.month, t.value.day));
    }
  }

  lemma ByteShowsConvention(convention: WeekdayBase, fromSunday: nat)
    requires Decided(convention) && fromSunday <= 6
    ensures ShownBase(fromSunday, ConventionByte(convention, fromSunday + 1))
            == Some(if convention == Monday0 || fromSunday == 0 then convention else Sunday0OrMonday1)
  {}

  /** Writing in the clock's own convention, or in the ambiguous one when it is not monday=0, is sound. */
  lemma BaseSound(convention: WeekdayBase, base: WeekdayBase)
    requires Decided(convention) && (base == convention || base == Sunday0OrMonday1)
    ensures (forall dow: Dow :: SoundFor(convention, base, dow)) <==> base == convention || convention != Monday0
  {
    if base == convention || convention != Monday0 {
      forall dow: Dow
        ensures SoundFor(convention, base, dow)
      {}
    } else {
      assert !SoundFor(convention, base, 2);
    }
  }

  lemma {:induction false} LearnedIsTrue(convention: WeekdayBase, history: seq<seq<u8>>)
    requires Decided(convention)
    requires forall i :: 0 <= i < |history| ==> FromClock(convention, history[i])
    ensures LearnedFrom(history).Some? ==> LearnedFrom(history).value == convention
  {
    if history != [] {
      var before := history[..|history| - 1];
      assert forall i :: 0 <= i < |before| ==> before[i] == history[i];
      LearnedIsTrue(convention, before);
      ReadShowsConvention(convention, history[|history| - 1]);
    }
  }

  /** The byte written for `dow` is right, or flagged as a guess about a Sunday. */
  predicate SoundFor(convention: WeekdayBase, base: WeekdayBase, dow: Dow)
    requires Decided(convention)
  {
    var w := DeviceWeekday(dow, base);
    w.weekday == ConventionByte(convention, dow) || (w.undecided && dow == 1)
  }

  /**
   Over any history of reads of a clock that truly uses one convention, what the sync
   writes is right for every day, or is a flagged Sunday -- except for a monday=0 clock
   that is not configured, has never shown its convention and could not be read just now.
   */
  lemma InferenceSound(convention: WeekdayBase, configured: bool, history: seq<seq<u8>>, now: seq<u8>)
    requires Decided(convention) && FromClock(convention, now)
    requires forall i :: 0 <= i < |history| ==> FromClock(convention, history[i])
    ensures var read := ClockWeekdayBase(now, 0);
            var setting := if configured then Some(convention) else None;
            var base := ResolveBase(setting, read, Learn(LearnedFrom(history), read));
            (forall dow: Dow :: SoundFor(convention, base, dow)) <==>
            !(convention == Monday0 && !configured && LearnedFrom(history).None? && DecodeDateTime(now, 0).None?)
  {
    LearnedIsTrue(convention, history);
    ReadShowsConvention(convention, now);
    var read := ClockWeekdayBase(now, 0);
    var base := ResolveBase(if configured then Some(convention) else None, read, Learn(LearnedFrom(history), read));
    BaseSound(convention, base);
  }

  /** The exception is real: such a clock gets sunday=0's byte on a Tuesday, unflagged. */
  lemma UnreadMonday0IsMiswritten()
    ensures var base := ResolveBase(None, None, None);
            DeviceWeekday(3, base) == Written(2, false) && ConventionByte(Monday0, 3) == 1
  {}

  // --- the sync decision ---------------------------------------------------------------------

  datatype EspTime = EspTime(t: DateTime, dow: Dow)

  datatype ClockConfig = ClockConfig(interval: u32, threshold: u32, syncOnBoot: bool, configured: Option<WeekdayBase>)

  datatype Decision = Decision(learned: Option<WeekdayBase>, payload: Option<seq<u8>>)

  function Drift(source: DateTime, device: DateTime): nat {
    var d := CivilSeconds(source) - CivilSeconds(device);
    if d < 0 then -d else d
  }

  /** What a read of the device clock leads to; `source` is None while the time source is invalid. */
  function Decide(config: ClockConfig, learned: Option<WeekdayBase>, data: seq<u8>, source: Option<EspTime>)
    : (d: Decision)
    ensures d.payload.Some? ==> |d.payload.value| == 8
  {
    if source.None? then Decision(learned, None)
    else
      var device := DecodeDateTime(data, 0);
      if device.Some? && Drift(source.value.t, device.value) <= config.threshold then Decision(learned, None)
      else
        var read := if device.Some? then ClockWeekdayBase(data, 0) else None;
        var learned' := Learn(learned, read);
        var base := ResolveBase(config.configured, read, learned');
        Decision(learned', EncodeDateTime(source.value.t, DeviceWeekday(source.value.dow, base).weekday))
  }

  /** A time the block can hold. */
  predicate Encodable(t: DateTime) {
    t.year <= 9999 && 1 <= t.month <= 12 && 1 <= t.day <= 31 && t.hour <= 23 && t.minute <= 59 && t.second <= 59
  }

  /**
   A sync writes the source's time exactly when the block can hold it and the device clock is
   unreadable, or behind or ahead by more than the threshold; and what it writes reads back
   as that time.
   */
  lemma DecideWritesTheTime(config: ClockConfig, learned: Option<WeekdayBase>, data: seq<u8>, source: EspTime)
    ensures var d := Decide(config, learned, data, Some(source));
            var device := DecodeDateTime(data, 0);
            && (d.payload.Some? <==>
                  && Encodable(source.t)
                  && (|| device.None?
                      || CivilSeconds(source.t) > CivilSeconds(device.value) + config.threshold
                      || CivilSeconds(device.value) > CivilSeconds(source.t) + config.threshold))
            && (d.payload.Some? && source.t.year >= 1990 ==> DecodeDateTime(d.payload.value, 0) == Some(source.t))
  {
    var d := Decide(config, learned, data, Some(source));
    if d.payload.Some? {
      var read := if DecodeDateTime(data, 0).Some? then ClockWeekdayBase(data, 0) else None;
      var base := ResolveBase(config.configured, read, d.learned);
      DateTimeRoundTrip(source.t, DeviceWeekday(source.dow, base).weekday);
    }
  }

  /** A device clock `n` seconds behind or ahead, counted one by one, is set if and only if n is over the threshold. */
  lemma OffBySeconds(config: ClockConfig, learned: Option<WeekdayBase>, data: seq<u8>, source: EspTime,
                     device: DateTime, n: nat)
    requires DecodeDateTime(data, 0) == Some(device) && Encodable(source.t)
    requires SecondsLater(device, source.t, n) || SecondsLater(source.t, device, n)
    ensures Decide(config, learned, data, Some(source)).payload.Some? <==> n > config.threshold
  {
    if SecondsLater(device, source.t, n) {
      SecondsCount(device, source.t, n);
    } else {
      SecondsCount(source.t, device, n);
    }
    DecideWritesTheTime(config, learned, data, source);
  }

  /** The base a sync writes in is the clock's own, or open with nothing learned to the contrary. */
  lemma SyncBase(convention: WeekdayBase, config: ClockConfig, history: seq<seq<u8>>, data: seq<u8>)
    requires Decided(convention) && FromClock(convention, data)
    requires config.configured.Some? ==> config.configured.value == convention
    requires forall i :: 0 <= i < |history| ==> FromClock(convention, history[i])
    ensures var read := ClockWeekdayBase(data, 0);
            var learned := Learn(LearnedFrom(history), read);
            var base := ResolveBase(config.configured, read, learned);
            && (learned.Some? ==> learned.value == convention)
            && (base == convention || (base == Sunday0OrMonday1 && config.configured.None? && learned.None?))
            && (base != convention && convention == Monday0 ==> DecodeDateTime(data, 0).None?)
  {
    LearnedIsTrue(convention, history);
    ReadShowsConvention(convention, data);
  }

  /** A staged write carries the weekday of the resolved base; otherwise nothing or the same is remembered. */
  lemma DecideWritesTheWeekday(config: ClockConfig, learned: Option<WeekdayBase>, data: seq<u8>, source: EspTime)
    ensures var d := Decide(config, learned, data, Some(source));
            var read := ClockWeekdayBase(data, 0);
            && (d.learned == learned || d.learned == Learn(learned, read))
            && (d.payload.Some? ==>
                  && d.learned == Learn(learned, read)
                  && BcdToInt(d.payload.value[4])
                     == Some(DeviceWeekday(source.dow, ResolveBase(config.configured, read, d.learned)).weekday))
  {
    var d := Decide(config, learned, data, Some(source));
    if d.payload.Some? {
      var base := ResolveBase(config.configured, ClockWeekdayBase(data, 0), d.learned);
      DateTimeRoundTrip(source.t, DeviceWeekday(source.dow, base).weekday);
    }
  }

  /** A configured convention is the one written, whatever the clock shows or has shown. */
  lemma ConfiguredWins(convention: WeekdayBase, config: ClockConfig, learned: Option<WeekdayBase>, data: seq<u8>,
                       source: EspTime)
    requires Decided(convention) && config.configured == Some(convention)
    ensures var d := Decide(config, learned, data, Some(source));
            d.payload.Some? ==> BcdToInt(d.payload.value[4]) == Some(ConventionByte(convention, source.dow))
  {
    DecideWritesTheWeekday(config, learned, data, source);
    OpenBaseByte(convention, convention, source.dow);
  }

  lemma OpenBaseByte(convention: WeekdayBase, base: WeekdayBase, dow: Dow)
    requires Decided(convention) && (base == convention || base == Sunday0OrMonday1)
    ensures DeviceWeekday(dow, base).weekday == ConventionByte(convention, dow)
            || (base != convention && (dow == 1 || convention == Monday0))
  {
    BaseSound(convention, base);
    if base == convention || convention != Monday0 {
      assert SoundFor(convention, base, dow);
    }
  }

  /**
   A whole sync. For a clock that truly keeps a convention, after any history of its reads,
   what is remembered is that convention, and the weekday byte of a staged write is the one
   the convention has for the source's day -- unless the convention is still open, and then
   only on a Sunday, or for a monday=0 clock that could not be read just now.
   */
  lemma SyncWritesTrueWeekday(convention: WeekdayBase, config: ClockConfig, history: seq<seq<u8>>, data: seq<u8>,
                              source: EspTime)
    requires Decided(convention) && FromClock(convention, data)
    requires config.configured.Some? ==> config.configured.value == convention
    requires forall i :: 0 <= i < |history| ==> FromClock(convention, history[i])
    ensures var d := Decide(config, LearnedFrom(history), data, Some(source));
            && (d.learned.Some? ==> d.learned.value == convention)
            && (d.payload.Some? ==>
                  || BcdToInt(d.payload.value[4]) == Some(ConventionByte(convention, source.dow))
                  || (config.configured.None? && d.learned.None?
                      && (source.dow == 1 || (convention == Monday0 && DecodeDateTime(data, 0).None?))))
  {
    LearnedIsTrue(convention, history);
    DecideWritesTheWeekday(config, LearnedFrom(history), data, source);
    SyncBase(convention, config, history, data);
    var read := ClockWeekdayBase(data, 0);
    OpenBaseByte(convention, ResolveBase(config.configured, read, Learn(LearnedFrom(history), read)), source.dow);
  }
}
