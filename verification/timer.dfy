/** The countdown badge of an interview
    (`client/src/components/interview/TimerWidget.jsx`): its colour class
    follows the time left. */
module Timer {

  datatype TimerClass = Critical | Warning | Normal {
    /** The class name the badge carries. */
    function Name(): string {
      match this
      case Critical => "critical"
      case Warning => "warning"
      case Normal => "normal"
    }

    /** How urgent the badge looks, from 0 (normal) to 2 (critical). */
    function Severity(): nat {
      match this
      case Normal => 0
      case Warning => 1
      case Critical => 2
    }
  }

  /** `getTimerClass()`: the last minute is critical, the last five
      minutes a warning, anything longer normal. */
  function GetTimerClass(timeRemaining: int): (c: TimerClass)
    ensures c == Critical <==> timeRemaining <= 60
    ensures c == Warning <==> 60 < timeRemaining <= 300
    ensures c == Normal <==> timeRemaining > 300
  {
    if timeRemaining <= 60 then Critical
    else if timeRemaining <= 300 then Warning
    else Normal
  }

  /** As time runs down the badge only grows more urgent. */
  lemma SeverityGrows(later: int, earlier: int)
    requires later <= earlier
    ensures GetTimerClass(later).Severity() >= GetTimerClass(earlier).Severity()
  {
  }
}
