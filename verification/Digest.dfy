/**
  File digests (Daemon/common_utils/filesystem.cpp, GetMD5): the file is fed in 4096-byte
  buffers and the digest printed in hexadecimal. MD5 itself is a parameter.
*/
module Digest {
  import opened Common

  newtype byte = x: int | 0 <= x < 256

  const BUFFER_SIZE := 4096

  /** std::ifstream: once a read comes up short the stream has failed, and reads nothing more. */
  class InputFile {
    const data: seq<byte>
    var position: nat
    var good: bool

    /** A file that cannot be opened has failed from the start. */
    constructor (data: seq<byte>, readable: bool)
      ensures this.data == data && position == 0 && good == readable
    {
      this.data, position, good := data, 0, readable;
    }

    /** The buffer holds gcount bytes afterwards; the result is the stream's state. */
    method Read(size: nat) returns (ok: bool, buffer: seq<byte>)
      requires position <= |data|
      modifies this
      ensures ok == good && position <= |data|
      ensures !old(good) ==> !good && buffer == [] && position == old(position)
      ensures old(good) ==> position == old(position) + |buffer| && buffer == data[old(position)..position]
      ensures old(good) ==> (if |data| - old(position) >= size then |buffer| == size && good
                             else position == |data| && !good)
    {
      if !good {
        return false, [];
      }
      var count := if |data| - position >= size then size else |data| - position;
      buffer := data[position..position + count];
      position := position + count;
      good := count == size;
      ok := good;
    }
  }

  /** The existence test throws; a file that then cannot be opened is digested as an empty one. */
  method GetMD5(fileExists: bool, readable: bool, data: seq<byte>, md5: seq<byte> -> seq<byte>) returns (r: Result<string, ()>)
    ensures r == if fileExists then Ok(Print(md5(if readable then data else []))) else Err(())
  {
    if !fileExists {
      return Err(());
    }
    var ifs := new InputFile(data, readable);
    var fed: seq<byte> := [];
    var ok, buffer := ifs.Read(BUFFER_SIZE);
    while ok || |buffer| != 0
      invariant ifs.data == data && ifs.position <= |data| && ok == ifs.good
      invariant fed + buffer == data[..ifs.position]
      invariant !ok ==> ifs.position == if readable then |data| else 0
      invariant !readable ==> !ok && buffer == []
      decreases |data| - ifs.position, ok, |buffer|
    {
      fed := fed + buffer;
      ok, buffer := ifs.Read(BUFFER_SIZE);
    }
    assert fed == if readable then data else [];
    var digest := md5(fed);
    var text := "";
    for i := 0 to |digest|
      invariant text == Print(digest[..i])
    {
      assert digest[..i + 1][..i] == digest[..i];
      text := text + Padded(Hex(digest[i] as nat));
    }
    assert digest[..|digest|] == digest;
    r := Ok(text);
  }

  // ----- hexadecimal -----

  function HexDigit(d: nat): (c: char)
    requires d < 16
    ensures '0' <= c <= '9' || 'a' <= c <= 'f'
  {
    if d < 10 then ('0' as int + d) as char else ('a' as int + d - 10) as char
  }

  /** std::hex: no more digits than needed. */
  function Hex(n: nat): string {
    if n < 16 then [HexDigit(n)] else Hex(n / 16) + [HexDigit(n % 16)]
  }

  /** setw(2) with setfill('0'). */
  function Padded(s: string): string
    decreases if |s| < 2 then 2 - |s| else 0
  {
    if |s| < 2 then Padded("0" + s) else s
  }

  function Print(digest: seq<byte>): string {
    if digest == [] then "" else
    Print(digest[..|digest| - 1]) + Padded(Hex(digest[|digest| - 1] as nat))
  }

  function Value(c: char): Option<nat> {
    if '0' <= c <= '9' then Some(c as int - '0' as int)
    else if 'a' <= c <= 'f' then Some(c as int - 'a' as int + 10)
    else None
  }

  /** Two digits a byte, from the left. */
  function Decode(text: string): Option<seq<byte>>
    decreases |text|
  {
    if text == "" then Some([]) else
    if |text| < 2 then None else
    var n := |text| - 2;
    match (Decode(text[..n]), Value(text[n]), Value(text[n + 1]))
    case (Some(front), Some(high), Some(low)) =>
      if high * 16 + low < 256 then Some(front + [(high * 16 + low) as byte]) else None
    case _ => None
  }

  lemma PaddedIsTwoDigits(b: byte)
    ensures var s := Padded(Hex(b as nat));
      |s| == 2 && Value(s[0]) == Some(b as nat / 16) && Value(s[1]) == Some(b as nat % 16)
  {
    var n := b as nat;
    if n < 16 {
      assert Hex(n) == [HexDigit(n)];
      assert Padded(Hex(n)) == Padded("0" + Hex(n)) == ['0', HexDigit(n)];
    } else {
      assert Hex(n / 16) == [HexDigit(n / 16)];
      assert Hex(n) == [HexDigit(n / 16), HexDigit(n % 16)];
    }
  }

  /** The printed digest has fixed width, and the digest can be read back from it. */
  lemma {:induction false} DecodeRecovers(digest: seq<byte>)
    ensures |Print(digest)| == 2 * |digest| && Decode(Print(digest)) == Some(digest)
    decreases |digest|
  {
    if digest == [] {
    } else {
      var n := |digest| - 1;
      DecodeRecovers(digest[..n]);
      PaddedIsTwoDigits(digest[n]);
      var front, last := Print(digest[..n]), Padded(Hex(digest[n] as nat));
      assert (front + last)[..|front|] == front;
      assert digest[..n] + [digest[n]] == digest;
    }
  }

  /** So two files print alike only if their digests are the same. */
  lemma PrintIsInjective(a: seq<byte>, b: seq<byte>)
    ensures Print(a) == Print(b) <==> a == b
  {
    DecodeRecovers(a);
    DecodeRecovers(b);
  }
}
