/** The SYN payload: the file name, a NUL, and the file size in decimal. */
module Syn {
  import opened Common
  import opened Results

  const NUL: char := '\0'

  /** What the server's SYN handler raises. */
  datatype SynError = IndexError | ValueError | FilesizeError

  function Digit(d: nat): char
    requires d < 10
  {
    "0123456789"[d]
  }

  /** str(n). */
  function Decimal(n: nat): string {
    if n < 10 then [Digit(n)] else Decimal(n / 10) + [Digit(n % 10)]
  }

  predicate IsDigit(c: char) {
    '0' <= c <= '9'
  }

  function Value(c: char): nat
    requires IsDigit(c)
  {
    (c as int) - ('0' as int)
  }

  /** int(s) on a string of digits; anything else is a ValueError here. */
  function ParseDecimal(s: string): Option<nat> {
    if s == [] then None
    else
      var last := s[|s| - 1];
      if !IsDigit(last) then None
      else if |s| == 1 then Some(Value(last))
      else
        match ParseDecimal(s[..|s| - 1])
        case None => None
        case Some(n) => Some(10 * n + Value(last))
  }

  /** s.split(NUL). */
  function Split(s: string): (r: seq<string>)
    ensures |r| >= 1
  {
    if s == [] then [[]]
    else if s[0] == NUL then [[]] + Split(s[1..])
    else
      var rest := Split(s[1..]);
      [[s[0]] + rest[0]] + rest[1..]
  }

  function Payload(filename: string, filesize: nat): string {
    filename + [NUL] + Decimal(filesize)
  }

  function HandleSyn(payload: string): Result<(string, nat), SynError> {
    var parts := Split(payload);
    if |parts| < 2 then Err(IndexError)
    else
      match ParseDecimal(parts[1])
      case None => Err(ValueError)
      case Some(size) => if size > MAX_FILE_SIZE then Err(FilesizeError) else Ok((parts[0], size))
  }

  lemma {:induction false} DecimalParses(n: nat)
    ensures ParseDecimal(Decimal(n)) == Some(n)
    ensures NUL !in Decimal(n)
  {
    if n >= 10 {
      DecimalParses(n / 10);
      var s := Decimal(n);
      assert s[..|s| - 1] == Decimal(n / 10);
      assert s[|s| - 1] == Digit(n % 10);
      assert |Decimal(n / 10)| >= 1;
    }
  }

  lemma {:induction false} SplitNoNul(s: string)
    requires NUL !in s
    ensures Split(s) == [s]
  {
    if s != [] {
      SplitNoNul(s[1..]);
      assert [s[0]] + s[1..] == s;
    }
  }

  /** The first part is what stands before the first NUL; the rest is split on its own. */
  lemma {:induction false} SplitAtNul(name: string, rest: string)
    requires NUL !in name
    ensures Split(name + [NUL] + rest) == [name] + Split(rest)
  {
    var s := name + [NUL] + rest;
    if name == [] {
      assert s[1..] == rest;
    } else {
      assert s[1..] == name[1..] + [NUL] + rest;
      SplitAtNul(name[1..], rest);
      assert [name[0]] + name[1..] == name;
      assert ([name[1..]] + Split(rest))[1..] == Split(rest);
    }
  }

  lemma {:induction false} SplitHasNoNul(s: string)
    ensures NUL !in Split(s)[0]
  {
    if s != [] {
      SplitHasNoNul(s[1..]);
    }
  }

  /** A SYN built from a name and a size parses back to them exactly when the name has no NUL and
      the size is within the limit. */
  lemma SynRoundTripExact(filename: string, filesize: nat)
    ensures HandleSyn(Payload(filename, filesize)) == Ok((filename, filesize))
       <==> NUL !in filename && filesize <= MAX_FILE_SIZE
  {
    if NUL in filename {
      SplitHasNoNul(Payload(filename, filesize));
    } else {
      DecimalParses(filesize);
      SplitAtNul(filename, Decimal(filesize));
      SplitNoNul(Decimal(filesize));
    }
  }

  /** A string parses exactly when it is a nonempty string of digits. */
  lemma {:induction false} ParsesDigits(s: string)
    ensures ParseDecimal(s).Some? <==> s != [] && forall c :: c in s ==> IsDigit(c)
  {
    if |s| > 1 {
      var init, last := s[..|s| - 1], s[|s| - 1];
      ParsesDigits(init);
      assert s == init + [last];
    }
  }

  lemma {:induction false} SplitWithout(s: string)
    ensures |Split(s)| == 1 <==> NUL !in s
  {
    if s != [] {
      SplitWithout(s[1..]);
    }
  }

  /** The server's SYN handler on any payload: the name is what stands before the first NUL, the size what
      stands between it and the next one or the end. Without a NUL it raises IndexError, with a size that is
      no number ValueError, with one over the limit FilesizeError. */
  lemma HandleSynExact(payload: string, name: string, field: string, rest: string)
    requires NUL in payload ==>
      && payload == name + [NUL] + (field + rest) && NUL !in name && NUL !in field
      && (rest == [] || rest[0] == NUL)
    ensures HandleSyn(payload) ==
      if NUL !in payload then Err(IndexError)
      else if ParseDecimal(field) == None then Err(ValueError)
      else if ParseDecimal(field).value > MAX_FILE_SIZE then Err(FilesizeError)
      else Ok((name, ParseDecimal(field).value))
  {
    SplitWithout(payload);
    if NUL in payload {
      SplitAtNul(name, field + rest);
      if rest == [] {
        assert field + rest == field;
        SplitNoNul(field);
      } else {
        assert field + rest == field + [NUL] + rest[1..];
        SplitAtNul(field, rest[1..]);
      }
    }
  }
}
