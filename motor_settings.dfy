/** One motor's parameters as the firmware keeps them (src/motor_settings.cpp):
    four unsigned 32-bit words decoded from a 16-byte little-endian record. */
module Settings {
  import opened Wire
  import opened Masks
  import HostMotor

  /** The value a `MotorSettings` object holds. The class is copied and
      compared by value, so its state is a datatype; the in-place setters
      are the methods of `SettingsObject` below. */
  datatype MotorSettings = MotorSettings(number: Word, acceleration: Word, maxSpeed: Word, steps: Word)

  /** Size of one record in the motor data. */
  const RECORD_SIZE: nat := 16

  /** The default constructor: every field 0. */
  const DEFAULT: MotorSettings := MotorSettings(0, 0, 0, 0)

  /** `uint8_t offset = motorIndex * 16`: the product is truncated to 8 bits. */
  function RecordOffset(motorIndex: nat): (off: nat)
    requires motorIndex < 256
    ensures off < 256 && off % RECORD_SIZE == 0
    ensures motorIndex < 16 ==> off == RECORD_SIZE * motorIndex
  {
    TruncatedProduct(motorIndex);
    (motorIndex * RECORD_SIZE) % 256
  }

  /** The 8-bit truncation of 16 * i keeps only i mod 16. */
  lemma TruncatedProduct(i: nat)
    ensures (i * RECORD_SIZE) % 256 == (i % 16) * RECORD_SIZE
  {
    var q := i / 16;
    assert i * RECORD_SIZE == q * 256 + (i % 16) * RECORD_SIZE;
  }

  /** The truncation wraps: index 16 reads the record of index 0. */
  lemma RecordOffsetWraps()
    ensures RecordOffset(16) == RecordOffset(0) == 0
  {
  }

  /** The 16 bytes of a record: the four words, least significant byte first. */
  function Encode(s: MotorSettings): (r: seq<bv8>)
    ensures |r| == RECORD_SIZE
  {
    LeBytes(s.number) + LeBytes(s.acceleration) + LeBytes(s.maxSpeed) + LeBytes(s.steps)
  }

  /** The decoding constructor `MotorSettings(motorIndex, rxData)`: the caller
      must supply the 16 bytes at the (truncated) offset. */
  function Decode(motorIndex: nat, rxData: seq<bv8>): MotorSettings
    requires motorIndex < 256 && RecordOffset(motorIndex) + RECORD_SIZE <= |rxData|
  {
    var off := RecordOffset(motorIndex);
    MotorSettings(LeWordAt(rxData, off), LeWordAt(rxData, off + 4),
                  LeWordAt(rxData, off + 8), LeWordAt(rxData, off + 12))
  }

  /** A word read inside a slice is the word read at the same place of the
      whole string. */
  lemma WordInSlice(s: seq<bv8>, lo: nat, hi: nat, k: nat, rec: seq<bv8>)
    requires lo <= hi <= |s| && rec == s[lo..hi] && k + 4 <= hi - lo
    ensures LeWordAt(s, lo + k) == LeWordAt(rec, k)
  {
    assert s[lo + k] == rec[k] && s[lo + k + 1] == rec[k + 1];
    assert s[lo + k + 2] == rec[k + 2] && s[lo + k + 3] == rec[k + 3];
  }

  /** The record decoded at an offset depends only on the 16 bytes there. */
  lemma DecodeReadsRecord(motorIndex: nat, rxData: seq<bv8>, rec: seq<bv8>)
    requires motorIndex < 256 && RecordOffset(motorIndex) + RECORD_SIZE <= |rxData|
    requires rec == rxData[RecordOffset(motorIndex)..RecordOffset(motorIndex) + RECORD_SIZE]
    ensures Decode(motorIndex, rxData) == Decode(0, rec)
  {
    var off := RecordOffset(motorIndex);
    WordInSlice(rxData, off, off + RECORD_SIZE, 0, rec);
    WordInSlice(rxData, off, off + RECORD_SIZE, 4, rec);
    WordInSlice(rxData, off, off + RECORD_SIZE, 8, rec);
    WordInSlice(rxData, off, off + RECORD_SIZE, 12, rec);
  }

  /** The slices of an encoded record are the encodings of its fields. */
  lemma EncodeSlices(s: MotorSettings, r: seq<bv8>)
    requires r == Encode(s)
    ensures r[0..4] == LeBytes(s.number) && r[4..8] == LeBytes(s.acceleration)
    ensures r[8..12] == LeBytes(s.maxSpeed) && r[12..16] == LeBytes(s.steps)
  {
  }

  /** Decoding an encoded record gives the settings back. */
  lemma DecodeOfEncode(s: MotorSettings, rec: seq<bv8>)
    requires rec == Encode(s)
    ensures Decode(0, rec) == s
  {
    EncodeSlices(s, rec);
    LeWordOfBytes(s.number, rec, 0);
    LeWordOfBytes(s.acceleration, rec, 4);
    LeWordOfBytes(s.maxSpeed, rec, 8);
    LeWordOfBytes(s.steps, rec, 12);
  }

  /** Encoding the decoded settings gives back the 16 bytes they were read
      from: the decoder loses nothing. */
  lemma EncodeOfDecode(motorIndex: nat, rxData: seq<bv8>)
    requires motorIndex < 256 && RecordOffset(motorIndex) + RECORD_SIZE <= |rxData|
    ensures Encode(Decode(motorIndex, rxData)) ==
            rxData[RecordOffset(motorIndex)..RecordOffset(motorIndex) + RECORD_SIZE]
  {
    var off := RecordOffset(motorIndex);
    var rec := rxData[off..off + RECORD_SIZE];
    DecodeReadsRecord(motorIndex, rxData, rec);
    LeBytesOfWord(rec, 0);
    LeBytesOfWord(rec, 4);
    LeBytesOfWord(rec, 8);
    LeBytesOfWord(rec, 12);
    EncodeFromSlices(Decode(0, rec), rec);
  }

  /** A record whose four slices encode the four fields is their encoding. */
  lemma EncodeFromSlices(s: MotorSettings, rec: seq<bv8>)
    requires |rec| == RECORD_SIZE
    requires rec[0..4] == LeBytes(s.number) && rec[4..8] == LeBytes(s.acceleration)
    requires rec[8..12] == LeBytes(s.maxSpeed) && rec[12..16] == LeBytes(s.steps)
    ensures Encode(s) == rec
  {
    assert rec == rec[0..4] + rec[4..8] + rec[8..12] + rec[12..16];
  }

  /** The record the host packs for a motor (`MotorParams.to_bytes`) is
      decoded by the firmware into the same four values. */
  lemma DecodesHostRecord(p: HostMotor.MotorParams, motorIndex: nat, rxData: seq<bv8>)
    requires HostMotor.Packable(p)
    requires motorIndex < 256 && RecordOffset(motorIndex) + RECORD_SIZE <= |rxData|
    requires rxData[RecordOffset(motorIndex)..RecordOffset(motorIndex) + RECORD_SIZE] == HostMotor.ToBytes(p).value
    ensures Decode(motorIndex, rxData) == MotorSettings(p.number, p.acceleration, p.maxSpeed, p.steps)
  {
    var s := MotorSettings(p.number, p.acceleration, p.maxSpeed, p.steps);
    assert HostMotor.ToBytes(p).value == Encode(s);
    DecodeReadsRecord(motorIndex, rxData, Encode(s));
    DecodeOfEncode(s, Encode(s));
  }

  /** The firmware decoder and the host's `MotorParams.from_bytes` read the
      same four values from a 16-byte record. */
  lemma DecodeAgreesWithHost(rec: seq<bv8>)
    requires |rec| == RECORD_SIZE
    ensures HostMotor.FromBytes(rec) ==
      Ok(HostMotor.MotorParams(Decode(0, rec).number, Decode(0, rec).acceleration,
                               Decode(0, rec).maxSpeed, Decode(0, rec).steps))
  {
  }

  /** The record of the motor test: 01000000 f4010000 e8030000 88130000 is
      motor 1, acceleration 500, maximum speed 1000, 5000 steps. */
  lemma DecodeExample()
    ensures Decode(0, [0x01, 0x00, 0x00, 0x00, 0xf4, 0x01, 0x00, 0x00,
                       0xe8, 0x03, 0x00, 0x00, 0x88, 0x13, 0x00, 0x00]) == MotorSettings(1, 500, 1000, 5000)
  {
    var rec: seq<bv8> := [0x01, 0x00, 0x00, 0x00, 0xf4, 0x01, 0x00, 0x00,
                          0xe8, 0x03, 0x00, 0x00, 0x88, 0x13, 0x00, 0x00];
    HostMotor.BasicParamsDecodeExample();
    DecodeAgreesWithHost(rec);
  }

  /** `operator==`: field-wise comparison, which is equality of the values. */
  function Equal(a: MotorSettings, b: MotorSettings): (r: bool)
    ensures r <==> a == b
  {
    a.number == b.number && a.acceleration == b.acceleration &&
    a.maxSpeed == b.maxSpeed && a.steps == b.steps
  }

  /** `operator!=`: the negation of `==`. */
  function NotEqual(a: MotorSettings, b: MotorSettings): (r: bool)
    ensures r <==> a != b
  {
    !Equal(a, b)
  }

  /** `isValid`: the checks in the order the source makes them. */
  function IsValid(s: MotorSettings): (r: bool)
    ensures r <==> 1 <= s.number <= MAX_MOTORS && s.acceleration != 0 && s.maxSpeed != 0
  {
    if s.number < 1 || s.number > MAX_MOTORS then false
    else if s.acceleration == 0 then false
    else if s.maxSpeed == 0 then false
    else true
  }

  /** `explicit operator bool`: whether the settings are valid. */
  function AsBool(s: MotorSettings): (r: bool)
    ensures r == IsValid(s)
  {
    IsValid(s)
  }

  /** A valid motor number names one of the ten motor slots. */
  lemma ValidNumberHasSlot(s: MotorSettings)
    requires IsValid(s)
    ensures s.number - 1 in MOTOR_SLOTS
  {
    MotorSlotsExactly(s.number - 1);
  }

  /** The step count is never checked, and the default settings are invalid. */
  lemma ValidityIgnoresSteps(s: MotorSettings, steps: Word)
    ensures IsValid(s.(steps := steps)) == IsValid(s)
    ensures !IsValid(DEFAULT)
  {
  }

  /** A `MotorSettings` object: the four fields the setters assign in place. */
  class SettingsObject {
    var number: Word
    var acceleration: Word
    var maxSpeed: Word
    var steps: Word

    /** The value the object holds. */
    function View(): MotorSettings
      reads this
    {
      MotorSettings(number, acceleration, maxSpeed, steps)
    }

    /** The default constructor. */
    constructor ()
      ensures View() == DEFAULT
    {
      number, acceleration, maxSpeed, steps := 0, 0, 0, 0;
    }

    /** The four-argument constructor. */
    constructor FromFields(number: Word, acceleration: Word, maxSpeed: Word, steps: Word)
      ensures View() == MotorSettings(number, acceleration, maxSpeed, steps)
    {
      this.number, this.acceleration, this.maxSpeed, this.steps := number, acceleration, maxSpeed, steps;
    }

    /** The decoding constructor. */
    constructor FromRecord(motorIndex: nat, rxData: seq<bv8>)
      requires motorIndex < 256 && RecordOffset(motorIndex) + RECORD_SIZE <= |rxData|
      ensures View() == Decode(motorIndex, rxData)
    {
      var s := Decode(motorIndex, rxData);
      number, acceleration, maxSpeed, steps := s.number, s.acceleration, s.maxSpeed, s.steps;
    }

    method SetNumber(n: Word)
      modifies this
      ensures View() == old(View()).(number := n)
    {
      number := n;
    }

    method SetAcceleration(a: Word)
      modifies this
      ensures View() == old(View()).(acceleration := a)
    {
      acceleration := a;
    }

    method SetMaxSpeed(v: Word)
      modifies this
      ensures View() == old(View()).(maxSpeed := v)
    {
      maxSpeed := v;
    }

    method SetSteps(n: Word)
      modifies this
      ensures View() == old(View()).(steps := n)
      ensures IsValid(View()) == IsValid(old(View()))
    {
      steps := n;
    }
  }
}
