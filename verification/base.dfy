/** Shared vocabulary: optional values, the failure-carrying result of every
    service call, and the errors the services raise (with their messages). */
module Base {

  /** A nullable Java reference. */
  datatype Option<+T> = None | Some(value: T) {
    function GetOr(default: T): T {
      match this
      case Some(v) => v
      case None => default
    }
  }

  /** Every error a modelled service call can end with. Each corresponds to a
      `RuntimeException` (or, for the last two, an exception raised by the
      persistence layer) thrown inside a transactional method, so the store is
      left as it was. */
  datatype Error =
    | EndNotAfterStart
    | NotTwoHours
    | DuplicateSchedule
    | ScheduleNotFound
    | DepartmentIdRequired
    | DateRangeRequired
    | EndDateBeforeStart
    | OutsideWorkingHours
    | SlotFull
    | AppointmentNotFound
    | CannotCancel
    | CannotConfirm
    | CannotComplete
    | RequestNotFound
    | RequestAlreadyProcessed
    | DoctorNotFound
    | UserNotFound
    | EmailTaken
    | DepartmentNotFound
    | DepartmentNameExists
    | MailSendFailed
    /** The database refuses a row: a NOT NULL column left null or a value
        longer than its column. */
    | ColumnConstraintViolation
    /** A query declared to return at most one row found several. */
    | NonUniqueResult

  /** The message text the source attaches to each error. */
  function Message(e: Error): string {
    match e
    case EndNotAfterStart => "结束时间必须晚于开始时间"
    case NotTwoHours => "每个工作时段必须为2小时"
    case DuplicateSchedule => "该时间段已存在排班"
    case ScheduleNotFound => "排班不存在"
    case DepartmentIdRequired => "科室ID不能为空"
    case DateRangeRequired => "日期范围不能为空"
    case EndDateBeforeStart => "结束日期不能早于开始日期"
    case OutsideWorkingHours => "该时间段不在医生的工作时间内，请选择医生的工作时间段"
    case SlotFull => "该时间段已满员，请选择其他时间"
    case AppointmentNotFound => "预约不存在"
    case CannotCancel => "只有待确认或已确认的预约可以取消"
    case CannotConfirm => "只有待确认的预约可以确认"
    case CannotComplete => "只有已确认的预约可以完成"
    case RequestNotFound => "申请不存在"
    case RequestAlreadyProcessed => "该申请已处理"
    case DoctorNotFound => "医生不存在"
    case UserNotFound => "用户不存在"
    case EmailTaken => "该邮箱已被注册"
    case DepartmentNotFound => "科室不存在"
    case DepartmentNameExists => "科室名称已存在"
    case MailSendFailed => "邮件发送失败，请稍后重试"
    case ColumnConstraintViolation => ""
    case NonUniqueResult => ""
  }

  /** The outcome of a service call: a value, or the error it threw. */
  datatype Result<+T> = Ok(value: T) | Err(error: Error) {
    predicate IsFailure() { Err? }

    function PropagateFailure<U>(): Result<U>
      requires Err?
    {
      Err(error)
    }

    function Extract(): T
      requires Ok?
    {
      value
    }
  }

  /** Identifier generation (an IDENTITY column): a number larger than every
      identifier already in use. */
  function FreshId(ids: seq<int>): (r: int)
    ensures forall i :: 0 <= i < |ids| ==> ids[i] < r
  {
    if |ids| == 0 then 1
    else
      var rest := FreshId(ids[1..]);
      if ids[0] < rest then rest else ids[0] + 1
  }
}
