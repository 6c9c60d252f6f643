/**
 * Lowercase forms of the fixed words the business rules compare against. The generic steps take
 * the word as parameters, so that each fixed word costs one character-by-character check.
 */
module Words {
  import opened Text

  lemma LowerCons(c: char, t: string)
    ensures Lower([c] + t) == [LowerChar(c)] + Lower(t)
  {
    assert ([c] + t)[1..] == t;
  }

  /** A word capitalised at its first letter only lowercases at that letter. */
  lemma Capitalised(c: char, t: string, w: string)
    requires 'A' <= c <= 'Z' && forall i :: 0 <= i < |t| ==> !('A' <= t[i] <= 'Z')
    requires w == [(c as int + 32) as char] + t
    ensures Lower([c] + t) == w
  {
    LowerCons(c, t);
    LowerWithoutCapitals(t);
  }

  /** A word in capitals lowercases letter by letter. */
  lemma AllCapitals(t: string, w: string)
    requires |w| == |t| && forall i :: 0 <= i < |t| ==> 'A' <= t[i] <= 'Z' && w[i] as int == t[i] as int + 32
    ensures Lower(t) == w
  {
  }

  lemma LowerCardiology() ensures Lower("Cardiology") == "cardiology" {
    assert "Cardiology" == ['C'] + "ardiology";
    Capitalised('C', "ardiology", "cardiology");
  }

  lemma LowerGeneral() ensures Lower("General") == "general" {
    assert "General" == ['G'] + "eneral";
    Capitalised('G', "eneral", "general");
  }

  lemma LowerRegular() ensures Lower("Regular") == "regular" {
    assert "Regular" == ['R'] + "egular";
    Capitalised('R', "egular", "regular");
  }

  lemma LowerEmergency() ensures Lower("Emergency") == "emergency" {
    assert "Emergency" == ['E'] + "mergency";
    Capitalised('E', "mergency", "emergency");
  }

  lemma LowerEmergencyCapitals() ensures Lower("EMERGENCY") == "emergency" {
    AllCapitals("EMERGENCY", "emergency");
  }

  lemma LowerExt() ensures Lower("EXT") == "ext" {
    AllCapitals("EXT", "ext");
  }

  lemma LowerDiabetesHypertension()
    ensures Lower("diabetes, hypertension") == "diabetes, hypertension"
  {
    LowerWithoutCapitals("diabetes, hypertension");
  }
}
