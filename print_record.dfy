/** Print records: the 23-octet encoding the printer stores for each record (body id,
    twelve stepping settings, five 16-bit counters) and the splitting of the printer's
    contents into records. */
module PrintRecords {
  import opened Wrappers
  import opened Codecs
  import opened Wheels

  type Octet = x: nat | x < 256

  const EncodedNOctets := 1 + NWheels + 2 * NCounters

  datatype PrintRecord = PrintRecord(bodyId: nat, settings: seq<nat>, counters: seq<nat>)
  {
    /** The shape a decoded record has: an octet body id, twelve octet settings and five
        16-bit counters. */
    predicate Valid()
    {
      && bodyId < 256
      && |settings| == NWheels && (forall i :: 0 <= i < |settings| ==> settings[i] < 256)
      && |counters| == NCounters && (forall k :: 0 <= k < |counters| ==> counters[k] < 65536)
    }
  }

  /** The `uint16` view of an even-length octet string, low octet first. */
  function LittleEndian16(o: seq<Octet>): (r: seq<nat>)
    requires |o| % 2 == 0
    ensures |r| == |o| / 2
  {
    seq(|o| / 2, k requires 0 <= k < |o| / 2 => o[2 * k] as nat + 256 * (o[2 * k + 1] as nat))
  }

  /** `PrintRecord.from_octets`: anything but 23 octets raises ValueError. */
  function FromOctets(o: seq<Octet>): (r: Result<PrintRecord>)
    ensures r.Err? <==> |o| != EncodedNOctets
    ensures r.Err? ==> r.fault == ValueError
  {
    if |o| != EncodedNOctets then Err(ValueError)
    else Ok(PrintRecord(o[0], o[1..NWheels + 1], LittleEndian16(o[NWheels + 1..])))
  }

  /** Where each field of a decoded record comes from: octet 0 is the body id, octets 1..12
      the settings, and counter k is o[13 + 2k] + 256 * o[14 + 2k]. */
  lemma FromOctetsFields(o: seq<Octet>)
    requires |o| == EncodedNOctets
    ensures FromOctets(o).Ok? && FromOctets(o).value.Valid()
    ensures FromOctets(o).value.bodyId == o[0]
    ensures forall i :: 0 <= i < NWheels ==> FromOctets(o).value.settings[i] == o[1 + i]
    ensures forall k :: 0 <= k < NCounters ==> FromOctets(o).value.counters[k] == o[13 + 2 * k] as nat + 256 * (o[14 + 2 * k] as nat)
  {
    var r := FromOctets(o).value;
    forall k | 0 <= k < NCounters
      ensures r.counters[k] == o[13 + 2 * k] as nat + 256 * (o[14 + 2 * k] as nat) && r.counters[k] < 65536
    {
      assert o[NWheels + 1..][2 * k] == o[13 + 2 * k];
      assert o[NWheels + 1..][2 * k + 1] == o[14 + 2 * k];
    }
  }

  /** The octets a record is stored as. */
  function Encode(r: PrintRecord): (o: seq<Octet>)
    requires r.Valid()
    ensures |o| == EncodedNOctets
  {
    [r.bodyId as Octet]
      + seq(NWheels, i requires 0 <= i < NWheels => r.settings[i] as Octet)
      + seq(2 * NCounters, j requires 0 <= j < 2 * NCounters =>
          (if j % 2 == 0 then r.counters[j / 2] % 256 else r.counters[j / 2] / 256) as Octet)
  }

  /** Decoding the encoding of a record gives the record back. */
  lemma DecodeEncode(r: PrintRecord)
    requires r.Valid()
    ensures FromOctets(Encode(r)) == Ok(r)
  {
    var o := Encode(r);
    var d := FromOctets(o).value;
    assert d.settings == r.settings;
    forall k | 0 <= k < NCounters
      ensures d.counters[k] == r.counters[k]
    {
      assert o[NWheels + 1..][2 * k] == r.counters[k] % 256;
      assert o[NWheels + 1..][2 * k + 1] == r.counters[k] / 256;
    }
    assert d.counters == r.counters;
  }

  /** Encoding a decoded record gives the octets back. */
  lemma EncodeDecode(o: seq<Octet>)
    requires |o| == EncodedNOctets
    ensures FromOctets(o).Ok? && FromOctets(o).value.Valid()
    ensures Encode(FromOctets(o).value) == o
  {
    FromOctetsFields(o);
    var r := FromOctets(o).value;
    var e := Encode(r);
    forall i | 0 <= i < EncodedNOctets
      ensures e[i] == o[i]
    {
      if i > NWheels {
        var k := (i - NWheels - 1) / 2;
        assert r.counters[k] == o[13 + 2 * k] as nat + 256 * (o[14 + 2 * k] as nat);
      }
    }
  }

  /** `printer_read_records`: a length that is not a multiple of 23 fails the assertion;
      otherwise one record per consecutive run of 23 octets, in order. */
  function ReadRecords(o: seq<Octet>): (r: Result<seq<PrintRecord>>)
    ensures r.Err? <==> |o| % EncodedNOctets != 0
    ensures r.Err? ==> r.fault == AssertionFailure
    ensures r.Ok? ==> |r.value| == |o| / EncodedNOctets
  {
    if |o| % EncodedNOctets != 0 then Err(AssertionFailure)
    else
      Ok(seq(|o| / EncodedNOctets, k requires 0 <= k < |o| / EncodedNOctets =>
        RecordAt(o, k)))
  }

  /** Record k of the printer's contents: octets 23k .. 23k + 22. */
  function RecordAt(o: seq<Octet>, k: nat): PrintRecord
    requires (k + 1) * EncodedNOctets <= |o|
  {
    FromOctets(o[k * EncodedNOctets..(k + 1) * EncodedNOctets]).value
  }

  /** The printer's contents for a list of records, one encoding after another. */
  function EncodeAll(rs: seq<PrintRecord>): (o: seq<Octet>)
    requires forall k :: 0 <= k < |rs| ==> rs[k].Valid()
    ensures |o| == |rs| * EncodedNOctets
  {
    if |rs| == 0 then [] else EncodeAll(rs[..|rs| - 1]) + Encode(rs[|rs| - 1])
  }

  lemma {:induction false} EncodeAllAt(rs: seq<PrintRecord>, k: nat)
    requires forall j :: 0 <= j < |rs| ==> rs[j].Valid()
    requires k < |rs|
    ensures EncodeAll(rs)[k * EncodedNOctets..(k + 1) * EncodedNOctets] == Encode(rs[k])
  {
    var n := |rs| - 1;
    var front := EncodeAll(rs[..n]);
    assert EncodeAll(rs) == front + Encode(rs[n]);
    if k < n {
      EncodeAllAt(rs[..n], k);
      assert (k + 1) * EncodedNOctets <= |front|;
    } else {
      var e := Encode(rs[n]);
      assert k * EncodedNOctets == |front|;
      assert (front + e)[|front|..|front| + |e|] == e;
    }
  }

  /** Record k read back from the contents written for rs is rs[k]. */
  lemma RecordAtEncodeAll(rs: seq<PrintRecord>, k: nat)
    requires forall j :: 0 <= j < |rs| ==> rs[j].Valid()
    requires k < |rs|
    ensures (k + 1) * EncodedNOctets <= |EncodeAll(rs)|
    ensures RecordAt(EncodeAll(rs), k) == rs[k]
  {
    MulMono(k + 1, |rs|, EncodedNOctets);
    EncodeAllAt(rs, k);
    DecodeEncode(rs[k]);
  }

  /** Reading back the contents written for a list of records gives the list, in order. */
  lemma ReadRecordsRoundTrip(rs: seq<PrintRecord>)
    requires forall k :: 0 <= k < |rs| ==> rs[k].Valid()
    ensures ReadRecords(EncodeAll(rs)) == Ok(rs)
  {
    var o := EncodeAll(rs);
    DivModUnique(|o|, EncodedNOctets, |rs|, 0);
    var got := ReadRecords(o).value;
    forall k | 0 <= k < |rs|
      ensures got[k] == rs[k]
    {
      RecordAtEncodeAll(rs, k);
    }
    assert |got| == |rs|;
    assert got == rs;
  }
}
