/** The file names that src/storage/migration_runner.cpp accepts, and the version each one carries. */
module MigrationNames {
  import opened Wrappers

  // The largest int; std::stoi throws beyond it.
  const INT_MAX := 2147483647

  predicate IsDigit(c: char) {
    '0' <= c <= '9'
  }

  predicate AllDigits(s: string) {
    forall i :: 0 <= i < |s| ==> IsDigit(s[i])
  }

  /** What the dot of the pattern does not match. */
  predicate OneLine(s: string) {
    forall i :: 0 <= i < |s| ==> s[i] != '\n' && s[i] != '\r'
  }

  /** The number of digits that a name starts with. */
  function DigitCount(s: string): (n: nat)
    ensures n <= |s| && AllDigits(s[..n]) && (n < |s| ==> !IsDigit(s[n]))
  {
    if s == "" || !IsDigit(s[0]) then 0 else 1 + DigitCount(s[1..])
  }

  function Number(digits: string): nat
    requires AllDigits(digits)
  {
    if digits == "" then 0
    else 10 * Number(digits[..|digits| - 1]) + (digits[|digits| - 1] as int - '0' as int)
  }

  /** Decimal notation; leading zeros count nothing. */
  lemma NumberExamples()
    ensures Number("120") == 120 && Number("009") == 9 && Number("000") == 0
  {
    assert "120"[..2] == "12" && "12"[..1] == "1" && "1"[..0] == "";
    assert "009"[..2] == "00" && "000"[..2] == "00" && "00"[..1] == "0" && "0"[..0] == "";
  }

  predicate EndsWith(s: string, suffix: string) {
    |suffix| <= |s| && s[|s| - |suffix|..] == suffix
  }

  /** The capture group of the pattern ^(\d+)_.+\.sql$, or None if the name does not match it. */
  function VersionDigits(name: string): (r: Option<string>)
    ensures r.Some? ==> AllDigits(r.value)
  {
    var n := DigitCount(name);
    if 0 < n && n + 5 < |name| && name[n] == '_' && EndsWith(name, ".sql") && OneLine(name[n + 1..|name| - 4])
    then Some(name[..n]) else None
  }

  function PrintName(digits: string, title: string): string {
    digits + "_" + title + ".sql"
  }

  lemma {:induction false} DigitCountIs(s: string, n: nat)
    requires n <= |s| && AllDigits(s[..n]) && (n < |s| ==> !IsDigit(s[n]))
    ensures DigitCount(s) == n
  {
    if n > 0 {
      assert s[..n][0] == s[0];
      assert s[1..][..n - 1] == s[..n][1..];
      DigitCountIs(s[1..], n - 1);
    }
  }

  lemma PrintedPieces(digits: string, title: string)
    ensures var name, n := PrintName(digits, title), |digits|;
            && |name| == n + 5 + |title| && name[..n] == digits && name[n] == '_'
            && name[n + 1..|name| - 4] == title && EndsWith(name, ".sql")
  {
    var name, n := PrintName(digits, title), |digits|;
    assert name == digits + ("_" + title + ".sql");
    assert name[n] == "_"[0];
  }

  /** A name matches with these digits exactly if it is digits, an underscore, a title of one line and the suffix. */
  lemma NameMatchesExactly(name: string, digits: string)
    ensures VersionDigits(name) == Some(digits)
            <==> digits != "" && AllDigits(digits)
                 && exists title :: title != "" && OneLine(title) && name == PrintName(digits, title)
  {
    hide DigitCount;
    if VersionDigits(name) == Some(digits) {
      var n := DigitCount(name);
      var title, suffix := name[n + 1..|name| - 4], name[|name| - 4..];
      assert name == name[..n] + [name[n]] + title + suffix;
      assert name == PrintName(digits, title);
    }
    if digits != "" && AllDigits(digits) {
      forall title | title != "" && OneLine(title) && name == PrintName(digits, title)
        ensures VersionDigits(name) == Some(digits)
      {
        PrintedPieces(digits, title);
        assert !IsDigit('_');
        DigitCountIs(name, |digits|);
      }
    }
  }

  /** The digits of a number, without leading zeros. */
  function Decimal(v: nat): (s: string)
    ensures s != "" && AllDigits(s)
  {
    if v < 10 then [('0' as int + v) as char] else Decimal(v / 10) + [('0' as int + v % 10) as char]
  }

  function Zeros(n: nat): (s: string)
    ensures |s| == n && AllDigits(s)
  {
    seq(n, i => '0')
  }

  /** Leading zeros do not change the version. */
  lemma {:induction false} NumberOfPadded(zeros: nat, digits: string)
    requires AllDigits(digits)
    ensures AllDigits(Zeros(zeros) + digits) && Number(Zeros(zeros) + digits) == Number(digits)
  {
    var s := Zeros(zeros) + digits;
    if digits != "" {
      NumberOfPadded(zeros, digits[..|digits| - 1]);
      assert s[..|s| - 1] == Zeros(zeros) + digits[..|digits| - 1];
    } else if zeros > 0 {
      NumberOfPadded(zeros - 1, "");
      assert s[..|s| - 1] == Zeros(zeros - 1) + "" && s[|s| - 1] == '0';
    }
  }

  lemma {:induction false} NumberOfDecimal(v: nat)
    ensures Number(Decimal(v)) == v
  {
    var s := Decimal(v);
    if v < 10 {
      assert s[..0] == "";
    } else {
      NumberOfDecimal(v / 10);
      assert s[..|s| - 1] == Decimal(v / 10);
    }
  }

  /** The version of a file named by its number, padded with zeros or not, is that number. */
  lemma VersionOfPrintedName(zeros: nat, v: nat, title: string)
    requires title != "" && OneLine(title)
    ensures var digits := VersionDigits(PrintName(Zeros(zeros) + Decimal(v), title));
            digits.Some? && Number(digits.value) == v
  {
    hide VersionDigits, Number, Decimal, PrintName;
    NumberOfPadded(zeros, Decimal(v));
    NumberOfDecimal(v);
    NameMatchesExactly(PrintName(Zeros(zeros) + Decimal(v), title), Zeros(zeros) + Decimal(v));
  }
}
