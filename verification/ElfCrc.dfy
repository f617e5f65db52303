/**
The converter and the CRC tool together: what the tool reports for a converted table is the CRC of
exactly the bytes of the object, whatever the encoding, the machine and the pattern of short reads.
*/
module ElfCrc {
  import opened ElfBytes
  import F = ElfFile
  import E = ElfEncoding
  import C = ElfConverter
  import Crc16

  /** Bytes as the CRC tool sees them. */
  function AsBits(b: seq<Octet>): (r: seq<bv8>)
    ensures |r| == |b|
  {
    seq(|b|, i requires 0 <= i < |b| => b[i] as bv8)
  }

  lemma HeadersSize(o: F.Settings, d: F.Def, n: nat)
    requires F.Fits(o) && F.DefFits(d)
    ensures |F.Headers(o, d, n)| == Crc16.HEADER_SIZE
  {
  }

  lemma DataIsPayload(headers: seq<Octet>, data: seq<Octet>)
    requires |headers| == Crc16.HEADER_SIZE
    ensures Crc16.Payload(AsBits(headers + data)) == AsBits(data)
  {
    var file := AsBits(headers + data);
    if data != [] {
      forall i | 0 <= i < |data| ensures file[Crc16.HEADER_SIZE + i] == AsBits(data)[i] {
        assert (headers + data)[Crc16.HEADER_SIZE + i] == data[i];
      }
      assert file[Crc16.HEADER_SIZE..] == AsBits(data);
    }
  }

  /** Converts an encoding of some contents, then runs the CRC tool on the result. */
  method ConvertAndCheck(file: seq<Octet>, host: bool, o: F.Settings, results: seq<int>,
                         ghost enc: F.Enc, ghost c: E.Contents, ghost l: E.Layout)
    returns (report: Crc16.Report)
    requires F.Fits(o) && E.Encodes(file, enc, c, l)
    requires Crc16.ReadPattern(results, |c.data|)
    ensures report.ReadError? <==> Crc16.ReadFails(results)
    ensures report.Report? ==> report.fileSize == |c.data| && Crc16.StandsFor(report.fileCrc, AsBits(c.data))
  {
    E.EncodingDoesNotMatter(file, enc, c, l, o);
    HeadersSize(o, c.def, |c.data|);
    DataIsPayload(F.Headers(o, c.def, |c.data|), c.data);
    var table := C.Convert(file, host, o);
    report := Crc16.CrcOfFile(AsBits(table.value), results);
  }
}
