/** The error codes that the option parsers return (m_option.h). */
module OptionCodes {
  const M_OPT_UNKNOWN := -1
  const M_OPT_MISSING_PARAM := -2
  const M_OPT_INVALID := -3
  const M_OPT_OUT_OF_RANGE := -4
}
