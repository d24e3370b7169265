// Archive files: decimal fields and member headers, written and read (archive.c).
// The format is that of ELF and COFF targets: names of up to 15 characters that end
// with a slash, longer ones in a table.

module ArchiveFormat {
  import opened Bytes
  import opened CLibrary

  const NEWLINE: Byte := 0x0a
  const BLANK: Byte := 0x20
  const SLASH: Byte := 0x2f
  const BACKSLASH: Byte := 0x5c
  const NAME_FIELD := 16    // sizeof ar_name
  const MAX_NAME := 15      // ar_maxnamelen
  const AR_HDR := 60        // sizeof (struct ar_hdr)
  const SARMAG := 8

  // "!<arch>\n" and "!<thin>\n"
  function Armag(thin: bool): (s: seq<Byte>)
    ensures |s| == SARMAG
  {
    if thin then [0x21, 0x3c, 0x74, 0x68, 0x69, 0x6e, 0x3e, 0x0a] else [0x21, 0x3c, 0x61, 0x72, 0x63, 0x68, 0x3e, 0x0a]
  }

  // ARFMAG
  const FMAG: seq<Byte> := [0x60, 0x0a]

  function Blanks(n: nat): (s: seq<Byte>)
    ensures |s| == n && forall i :: 0 <= i < n ==> s[i] == BLANK
  {
    seq(n, _ => BLANK)
  }

  // ---------- decimals ----------

  function Decimal(n: nat): (s: seq<Byte>)
    ensures |s| > 0 && forall i {:trigger s[i]} :: 0 <= i < |s| ==> IsDigit(s[i])
  {
    if n < 10 then [0x30 + n] else Decimal(n / 10) + [0x30 + n % 10]
  }

  predicate IsDigit(b: Byte) { 0x30 <= b <= 0x39 }

  // The number that the leading digits of s make, after those that made `value`.
  function Scan(s: seq<Byte>, value: nat): nat {
    if s == [] || !IsDigit(s[0]) then value else Scan(s[1..], 10 * value + (s[0] - 0x30))
  }

  // strtol, base 10, and sscanf "%u", after the white space.
  function Strtol(s: seq<Byte>): nat { Scan(SkipBlanks(s), 0) }

  function SkipBlanks(s: seq<Byte>): seq<Byte> {
    if s != [] && s[0] == BLANK then SkipBlanks(s[1..]) else s
  }

  // A written number is read back, up to the first byte that is not a digit.
  lemma {:induction false} ScanDecimal(n: nat, rest: seq<Byte>)
    requires rest == [] || !IsDigit(rest[0])
    ensures Scan(Decimal(n) + rest, 0) == n
  {
    ScanOn(n, rest);
  }

  lemma {:induction false} ScanOn(n: nat, rest: seq<Byte>)
    ensures Scan(Decimal(n) + rest, 0) == Scan(rest, n)
    decreases n
  {
    var d: Byte := 0x30 + n % 10;
    assert ([d] + rest)[1..] == rest;
    if n >= 10 {
      ScanOn(n / 10, [d] + rest);
      assert Decimal(n) + rest == Decimal(n / 10) + ([d] + rest);
    } else {
      assert Decimal(n) == [d];
    }
  }

  lemma StrtolDecimal(n: nat, rest: seq<Byte>)
    requires rest == [] || !IsDigit(rest[0])
    ensures Strtol(Decimal(n) + rest) == n
  {
    ScanDecimal(n, rest);
    assert (Decimal(n) + rest)[0] == Decimal(n)[0];
  }

  // Greater numbers are not shorter.
  lemma {:induction false} DecimalGrows(m: nat, n: nat)
    requires m <= n
    ensures |Decimal(m)| <= |Decimal(n)|
    decreases n
  {
    if n >= 10 && m >= 10 {
      DecimalGrows(m / 10, n / 10);
    }
  }

  // _bfd_ar_spacepad
  function SpacePad(n: nat, s: seq<Byte>): (r: seq<Byte>)
    ensures |r| == n
  {
    if |s| < n then s + Blanks(n - |s|) else s[..n]
  }

  // ---------- headers ----------

  // A member's header: its name field, the fields for date, owner and mode, and the
  // size of the member.
  datatype Header = Header(name: seq<Byte>, rest: seq<Byte>, size: nat)
  {
    predicate Ok() { |name| == NAME_FIELD && |rest| == 32 && |Decimal(size)| <= 10 }
  }

  function HeaderBytes(h: Header): (s: seq<Byte>)
    requires h.Ok()
    ensures |s| == AR_HDR
  {
    h.name + (h.rest + (SpacePad(10, Decimal(h.size)) + FMAG))
  }

  // What the reader keeps of a header: all its bytes, and the size.
  datatype ArHdr = ArHdr(bytes: seq<Byte>, size: nat)
  {
    predicate Ok() { |bytes| == AR_HDR }
  }

  // `sscanf (hdr.ar_size, "%u", &parsed_size)`
  function ScanSize(field: seq<Byte>): Option<nat> {
    var s := SkipBlanks(field);
    if s == [] || !IsDigit(s[0]) then None else Some(Scan(s, 0))
  }

  // _bfd_generic_read_ar_hdr_mag, up to the name.
  function ReadArHdr(file: seq<Byte>, pos: nat): (r: Option<ArHdr>)
    ensures r.Some? ==> pos + AR_HDR <= |file| && r.value.bytes == file[pos..pos + AR_HDR] && r.value.Ok()
  {
    if pos + AR_HDR > |file| || file[pos + 58..pos + 60] != FMAG then None
    else
      var size := ScanSize(file[pos + 48..pos + 58]);
      if size.None? then None else Some(ArHdr(file[pos..pos + AR_HDR], size.value))
  }

  lemma SizeScans(size: nat)
    requires |Decimal(size)| <= 10
    ensures ScanSize(SpacePad(10, Decimal(size))) == Some(size)
  {
    var d := Decimal(size);
    var rest := Blanks(10 - |d|);
    assert SpacePad(10, d) == d + rest;
    ScanDecimal(size, rest);
    assert (d + rest)[0] == d[0];
  }

  // A written header is read back.
  lemma HeaderReads(file: seq<Byte>, pos: nat, h: Header)
    requires h.Ok() && At(file, pos, HeaderBytes(h))
    ensures ReadArHdr(file, pos) == Some(ArHdr(HeaderBytes(h), h.size))
    ensures HeaderBytes(h)[..NAME_FIELD] == h.name
  {
    hide At, Decimal, ScanSize;
    var field := SpacePad(10, Decimal(h.size));
    AtRoom(file, pos, HeaderBytes(h));
    AtThree(file, pos, h.name, h.rest, field + FMAG);
    AtParts(file, pos + 48, field, FMAG);
    AtRoom(file, pos + 48, field);
    AtRoom(file, pos + 58, FMAG);
    SizeScans(h.size);
  }

  // ---------- names ----------

  // What a header says of its member's name.
  datatype NameRef = Inline(text: seq<Byte>) | InTable(text: seq<Byte>) | Bsd44 | BadName

  // memchr
  function Find(s: seq<Byte>, b: Byte): (n: nat)
    ensures n <= |s| && b !in s[..n] && (n < |s| ==> s[n] == b)
  {
    if s == [] || s[0] == b then 0
    else
      assert forall n :: 0 < n <= |s| ==> s[..n] == [s[0]] + s[1..][..n - 1];
      1 + Find(s[1..], b)
  }

  // is_bsd44_extended_name
  predicate IsBsd44(hdr: seq<Byte>)
    requires |hdr| == AR_HDR
  {
    hdr[0] == 0x23 && hdr[1] == 0x31 && hdr[2] == SLASH && IsDigit(hdr[3])
  }

  // Where a name in the header ends: at a NUL, or else a slash, or else a blank.
  function NameEnd(field: seq<Byte>): nat {
    if 0 in field then Find(field, 0)
    else if SLASH in field then Find(field, SLASH)
    else Find(field, BLANK)
  }

  // The name that _bfd_generic_read_ar_hdr_mag finds, given the name table in use.
  function NameOf(hdr: seq<Byte>, names: Option<seq<Byte>>): NameRef
    requires |hdr| == AR_HDR
  {
    var field := hdr[..MAX_NAME];
    if (hdr[0] == SLASH || (hdr[0] == BLANK && SLASH !in field)) && names.Some? then
      // get_extended_arelt_filename
      var index := Strtol(hdr[1..]);
      if index >= |names.value| then BadName else InTable(StringFrom(names.value + [0], index))
    else if IsBsd44(hdr) then Bsd44
    else Inline(field[..NameEnd(field)])
  }

  // A name that fits, with its slash, at the start of a header.
  predicate NameFits(hdr: seq<Byte>, name: seq<Byte>)
    requires |hdr| == AR_HDR
  {
    0 < |name| <= MAX_NAME && SLASH !in name && hdr[..|name|] == name && hdr[|name|] == SLASH
  }

  // Such a name is read back unless the field has a NUL among its first 15 bytes,
  // the name is 15 characters with a blank among them, or it is "#1" before a digit
  // left over from an earlier name.
  lemma ShortNameReadsBack(hdr: seq<Byte>, name: seq<Byte>, names: Option<seq<Byte>>)
    requires |hdr| == AR_HDR && NameFits(hdr, name)
    ensures NameOf(hdr, names) == Inline(name) <==>
            0 !in hdr[..MAX_NAME] && !(|name| == MAX_NAME && BLANK in name)
            && !(name == [0x23, 0x31] && IsDigit(hdr[3]))
  {
    var field := hdr[..MAX_NAME];
    assert forall i :: 0 <= i < |name| ==> field[i] == name[i] && name[i] != SLASH;
    if |name| < MAX_NAME {
      assert field[|name|] == SLASH;
    } else {
      assert field == name;
    }
    assert hdr[0] == name[0];
    if 0 !in field && SLASH in field {
      FindIs(field, SLASH, |name|);
    }
  }

  lemma {:induction false} FindIs(s: seq<Byte>, b: Byte, n: nat)
    requires n < |s| && s[n] == b && forall i :: 0 <= i < n ==> s[i] != b
    ensures Find(s, b) == n
  {
    if n > 0 {
      FindIs(s[1..], b, n - 1);
    }
  }
}
