/**
 * Group addresses of the form "main/middle/sub" (`parse_address`, identical
 * in both tools).
 */
module GroupAddress {
  import opened Wrappers
  import opened Text

  datatype Address = Address(main: int, middle: int, sub: int)

  datatype AddressError = WrongSegmentCount | NotAnInteger

  /**
   * Reads "main/middle/sub".  Fails unless splitting on '/' yields exactly
   * three segments, each a decimal integer; no range checks happen here.
   */
  function ParseAddress(text: string): (r: Result<Address, AddressError>)
    ensures r.Ok? <==> |Split(text, '/')| == 3 && forall i :: 0 <= i < 3 ==> ParseInt(Split(text, '/')[i]).Some?
    ensures |Split(text, '/')| != 3 ==> r == Err(WrongSegmentCount)
    ensures r.Ok? ==>
      && Some(r.value.main) == ParseInt(Split(text, '/')[0])
      && Some(r.value.middle) == ParseInt(Split(text, '/')[1])
      && Some(r.value.sub) == ParseInt(Split(text, '/')[2])
  {
    var parts := Split(text, '/');
    if |parts| != 3 then Err(WrongSegmentCount)
    else
      match (ParseInt(parts[0]), ParseInt(parts[1]), ParseInt(parts[2]))
      case (Some(m), Some(mi), Some(s)) => Ok(Address(m, mi, s))
      case _ => Err(NotAnInteger)
  }

  /** The canonical text of an address. */
  function FormatAddress(a: Address): string
  {
    IntToString(a.main) + "/" + IntToString(a.middle) + "/" + IntToString(a.sub)
  }

  /** The formatted text splits back into the three numbers' renderings. */
  lemma SplitFormatted(a: Address)
    ensures Split(FormatAddress(a), '/') == [IntToString(a.main), IntToString(a.middle), IntToString(a.sub)]
  {
    var m, mi, s := IntToString(a.main), IntToString(a.middle), IntToString(a.sub);
    NoOtherCharInNumber(a.main, '/');
    NoOtherCharInNumber(a.middle, '/');
    NoOtherCharInNumber(a.sub, '/');
    SplitNoSep(s, '/');
    SplitCons(mi, '/', s);
    SplitCons(m, '/', mi + "/" + s);
    assert FormatAddress(a) == m + ['/'] + (mi + ['/'] + s);
  }

  /** Parsing inverts formatting, for every triple of integers. */
  lemma ParseFormatRoundTrip(a: Address)
    ensures ParseAddress(FormatAddress(a)) == Ok(a)
  {
    SplitFormatted(a);
    ParseIntRoundTrip(a.main);
    ParseIntRoundTrip(a.middle);
    ParseIntRoundTrip(a.sub);
  }

  /** A text with other than two slashes is always rejected, e.g. "1/2". */
  lemma WrongSlashCountRejected(text: string)
    requires Count(text, '/') != 2
    ensures ParseAddress(text) == Err(WrongSegmentCount)
  {
    SplitLength(text, '/');
  }
}
