/** Audio sessions as the session map sees them: an identity, the flags that
    pick their key, and the name the key is derived from. */
module Sessions {
  import opened Text

  /** The reserved target names: the master output device, system sounds and
      the default input device. */
  const MasterSessionName: string := "master"
  const SystemSessionName: string := "system"
  const InputSessionName: string := "mic"

  /** A session. `id` stands for the object's identity, which the map uses when
      it releases sessions; the platform handle behind it is not modelled. */
  datatype Session = Session(id: nat, system: bool, master: bool, name: string, humanReadableDesc: string)

  /** baseSession.Key: "system" for the system-sounds session, otherwise the
      lower-cased name. */
  function Key(s: Session): (k: string)
    ensures IsLowercase(k)
    ensures s.system ==> k == SystemSessionName
    ensures !s.system ==> |k| == |s.name| && forall i | 0 <= i < |k| :: k[i] == LowerChar(s.name[i])
  {
    if s.system then SystemSessionName else Lower(s.name)
  }

  /** The key depends only on the system flag and the name up to case: the
      master flag, the description and the identity play no part. */
  lemma KeyIgnoresPresentation(a: Session, b: Session)
    requires a.system == b.system && Lower(a.name) == Lower(b.name)
    ensures Key(a) == Key(b)
  {
  }

  /** A non-system session keeps its name as key exactly when that name is
      already lower-case. */
  lemma KeyIsNameIffLowercase(s: Session)
    requires !s.system
    ensures Key(s) == s.name <==> IsLowercase(s.name)
  {
    LowerFixesExactlyLowercase(s.name);
  }

  /** A process session named "System" shares the system-sounds key. */
  lemma ProcessNamedSystemSharesKey(id: nat, desc: string)
    ensures Key(Session(id, false, false, "System", desc)) == Key(Session(id, true, false, "", desc))
  {
    assert Lower("System") == "system";
  }
}
