// Member names: what is well formed, what marks one critical, and the case they carry it in.
module Names {
  import opened Wrappers

  predicate IsLower(c: char)
  {
    'a' <= c <= 'z'
  }

  predicate IsUpper(c: char)
  {
    'A' <= c <= 'Z'
  }

  predicate Allowed(c: char)
  {
    IsLower(c) || IsUpper(c) || '0' <= c <= '9' || c == '-'
  }

  // Well formed and critical, well formed and not, or malformed: letters, digits and hyphens, in one case.
  function Classify(name: string): Option<bool>
  {
    if name == "" || exists i | 0 <= i < |name| :: !Allowed(name[i]) then None
    else
      var lower := exists i | 0 <= i < |name| :: IsLower(name[i]);
      var upper := exists i | 0 <= i < |name| :: IsUpper(name[i]);
      if lower && upper then None else Some(upper)
  }

  function LowerChar(c: char): char
  {
    if IsUpper(c) then c + 32 as char else c
  }

  function UpperChar(c: char): char
  {
    if IsLower(c) then c - 32 as char else c
  }

  function Lower(name: string): (r: string)
    ensures |r| == |name|
  {
    seq(|name|, i requires 0 <= i < |name| => LowerChar(name[i]))
  }

  function Upper(name: string): (r: string)
    ensures |r| == |name|
  {
    seq(|name|, i requires 0 <= i < |name| => UpperChar(name[i]))
  }

  // A name as the program writes it: well formed, and critical nowhere in it.
  predicate Plain(name: string)
  {
    Classify(name) == Some(false)
  }

  lemma LowerIsPlain(name: string)
    requires Classify(name).Some?
    ensures Plain(Lower(name))
    ensures Lower(Lower(name)) == Lower(name)
    ensures Plain(name) ==> Lower(name) == name
    ensures '.' !in Lower(name) && Lower(name) != ""
  {
    forall i | 0 <= i < |name| ensures Allowed(name[i]) && Allowed(Lower(name)[i]) && !IsUpper(Lower(name)[i]) {
    }
    if Plain(name) {
      forall i | 0 <= i < |name| ensures Lower(name)[i] == name[i] {
        assert !IsUpper(name[i]);
      }
    }
  }

  // Writing a plain name in upper case marks it, where it has a letter, and loses nothing.
  lemma UpperIsMarked(name: string)
    requires Plain(name)
    ensures Classify(Upper(name)).Some? && Lower(Upper(name)) == name
    ensures Classify(Upper(name)).value <==> exists i | 0 <= i < |name| :: IsLower(name[i])
  {
    var up := Upper(name);
    forall i | 0 <= i < |name| ensures Allowed(name[i]) && !IsUpper(name[i]) {
    }
    forall i | 0 <= i < |name| ensures Allowed(up[i]) && !IsLower(up[i]) && (IsUpper(up[i]) <==> IsLower(name[i])) {
    }
    forall i | 0 <= i < |name| ensures Lower(up)[i] == name[i] {
    }
    if j :| 0 <= j < |name| && IsLower(name[j]) {
      assert IsUpper(up[j]);
    }
  }

  const LOWER := "abcdefghijklmnopqrstuvwxyz"
  const UPPER := "ABCDEFGHIJKLMNOPQRSTUVWXYZ"
  const COMMON := "0123456789-"

  predicate Of(name: string, chars: string)
  {
    forall c | c in name :: c in chars
  }

  lemma Alphabets(c: char)
    ensures c in LOWER <==> 'a' <= c <= 'z'
    ensures c in UPPER <==> 'A' <= c <= 'Z'
    ensures c in COMMON <==> '0' <= c <= '9' || c == '-'
  {
    LowerLetters(c);
    UpperLetters(c);
    assert c in COMMON <==> '0' <= c <= '9' || c == '-' by {
      assert forall i | 0 <= i < 10 :: COMMON[i] == '0' + i as char;
      assert COMMON[10] == '-';
      if '0' <= c <= '9' {
        assert COMMON[c as int - '0' as int] == c;
      }
    }
  }

  lemma LowerLetters(c: char)
    ensures c in LOWER <==> 'a' <= c <= 'z'
  {
    assert forall i | 0 <= i < 26 :: LOWER[i] == 'a' + i as char;
    if 'a' <= c <= 'z' {
      assert LOWER[c as int - 'a' as int] == c;
    }
  }

  lemma UpperLetters(c: char)
    ensures c in UPPER <==> 'A' <= c <= 'Z'
  {
    assert forall i | 0 <= i < 26 :: UPPER[i] == 'A' + i as char;
    if 'A' <= c <= 'Z' {
      assert UPPER[c as int - 'A' as int] == c;
    }
  }

  /** A name is well formed exactly where it is letters of one case, digits and hyphens, and not empty; and critical
      where any of it is an upper-case letter. */
  lemma ClassifiesExactly(name: string)
    ensures Classify(name).Some? <==> name != "" && (Of(name, LOWER + COMMON) || Of(name, UPPER + COMMON))
    ensures Classify(name) == Some(true) <==>
            name != "" && Of(name, UPPER + COMMON) && exists c | c in name :: c in UPPER
  {
    forall c: char ensures (c in LOWER <==> IsLower(c)) && (c in UPPER <==> IsUpper(c)) {
      Alphabets(c);
    }
    forall c: char ensures c in COMMON <==> '0' <= c <= '9' || c == '-' {
      Alphabets(c);
    }
    assert forall i | 0 <= i < |name| :: name[i] in name;
  }
}
