/**
 * The naming convention for device #9 that both tools share: the function
 * table keyed by the middle level, the device number, the two object
 * types and the "<type><no> 9 <funcNo>" name.
 */
module Convention {
  import opened Wrappers
  import opened Text

  /** The two kinds of object an 80-slot module provides. */
  datatype ObjectType = Light | Group

  /** The one-character label the tools print: 灯 for a light, 组 for a group. */
  function Label(t: ObjectType): (c: char)
    ensures c != ' '
  {
    match t
    case Light => '灯'
    case Group => '组'
  }

  lemma LabelInjective(a: ObjectType, b: ObjectType)
    ensures Label(a) == Label(b) <==> a == b
  {
  }

  const DeviceNo: int := 9

  /** Middle level -> (function name, function code). */
  const Functions: map<int, (string, int)> := map[
    1 := ("开关写", 3),
    2 := ("亮度写", 1),
    3 := ("色温写", 5),
    4 := ("开关读", 2),
    5 := ("亮度读", 0),
    6 := ("色温读", 4)
  ]

  /** The function codes are exactly 0..5, one per middle level 1..6. */
  lemma FunctionTableShape()
    ensures Functions.Keys == {1, 2, 3, 4, 5, 6}
    ensures forall m :: m in Functions ==> 0 <= Functions[m].1 <= 5
    ensures forall m, n :: m in Functions && n in Functions && m != n ==> Functions[m].1 != Functions[n].1
  {
  }

  /** "<type><no>", the part of a name that identifies the object. */
  function BaseName(t: ObjectType, objectNo: int): string
  {
    [Label(t)] + IntToString(objectNo)
  }

  /** " 9 <funcNo>", the part of a name that identifies device and function. */
  function Suffix(funcNo: int): string
  {
    " " + IntToString(DeviceNo) + " " + IntToString(funcNo)
  }

  /** `build_new_name` (and the same f-string in the web tool). */
  function BuildName(t: ObjectType, objectNo: int, funcNo: int): string
  {
    BaseName(t, objectNo) + Suffix(funcNo)
  }

  /** Reads a name back into (type, object number, function code). */
  function ParseName(s: string): Option<(ObjectType, int, int)>
  {
    if |s| == 0 || (s[0] != Label(Light) && s[0] != Label(Group)) then None
    else
      var t := if s[0] == Label(Light) then Light else Group;
      var parts := Split(s[1..], ' ');
      if |parts| != 3 || parts[1] != IntToString(DeviceNo) then None
      else
        match (ParseInt(parts[0]), ParseInt(parts[2]))
        case (Some(no), Some(f)) => Some((t, no, f))
        case _ => None
  }

  /** Every generated name parses back to the identity it was built from. */
  lemma ParseBuildNameRoundTrip(t: ObjectType, objectNo: int, funcNo: int)
    ensures ParseName(BuildName(t, objectNo, funcNo)) == Some((t, objectNo, funcNo))
  {
    var no, dev, f := IntToString(objectNo), IntToString(DeviceNo), IntToString(funcNo);
    var s := BuildName(t, objectNo, funcNo);
    assert s[1..] == no + [' '] + (dev + [' '] + f);
    NoOtherCharInNumber(objectNo, ' ');
    NoOtherCharInNumber(DeviceNo, ' ');
    NoOtherCharInNumber(funcNo, ' ');
    SplitNoSep(f, ' ');
    SplitCons(dev, ' ', f);
    SplitCons(no, ' ', dev + " " + f);
    assert Split(s[1..], ' ') == [no, dev, f];
    ParseIntRoundTrip(objectNo);
    ParseIntRoundTrip(funcNo);
  }

  /** Distinct identities never share a generated name. */
  lemma BuildNameInjective(t1: ObjectType, n1: int, f1: int, t2: ObjectType, n2: int, f2: int)
    requires BuildName(t1, n1, f1) == BuildName(t2, n2, f2)
    ensures t1 == t2 && n1 == n2 && f1 == f2
  {
    ParseBuildNameRoundTrip(t1, n1, f1);
    ParseBuildNameRoundTrip(t2, n2, f2);
  }

  /** The spelled-out example: light 1, function code 3 is "灯1 9 3". */
  lemma NameExample()
    ensures BuildName(Light, 1, 3) == "灯1 9 3"
  {
  }
}
