/** The user profile and its enumerations (types.ts). */
module Profile {

  datatype Gender = Male | Female | Other

  datatype ActivityLevel = Sedentary | Moderate | Active

  datatype Diet = Omnivore | Vegetarian | Vegan

  /** A submitted profile: height in centimetres and weight in kilograms, as parsed
      from the form; nothing constrains their sign or range. The birthdate stays the
      text the form held. */
  datatype UserData = UserData(
    birthdate: string,
    country: string,
    height: real,
    weight: real,
    gender: Gender,
    activityLevel: ActivityLevel,
    diet: Diet)
}
